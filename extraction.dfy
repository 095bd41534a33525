/** Layer extraction: turning the layer list of a layered document into
    canvas-sized layer records (`psd2pil` and its `pad_to_canvas`). */
module Extraction {
  import opened Pixels

  /** A PIL image as rows of pixels. */
  type Grid = seq<seq<Rgba8>>

  /** A layer's bounding box `(x1, y1, x2, y2)` in canvas coordinates. */
  datatype BBox = BBox(x1: int, y1: int, x2: int, y2: int)

  /** A layer of the document: its box, its cropped pixels (`layer.topil()`),
      opacity, visibility and blend mode. */
  datatype Layer = Layer(name: string, bbox: BBox, pixels: Grid, opacity: Byte, visible: bool, mode: BlendMode)

  /** A top-level layer together with the layers clipped to it. */
  datatype DocLayer = DocLayer(layer: Layer, clips: seq<Layer>)

  datatype Document = Document(width: nat, height: nat, layers: seq<DocLayer>)

  /** One entry `[name, image, opacity, visible, blend_mode, is_clip]` of the result. */
  datatype LayerRecord = LayerRecord(name: string, image: Grid, opacity: Byte, visible: bool, mode: BlendMode, isClip: bool)

  /** `layer.size[0] == 0 or layer.size[1] == 0`. */
  predicate ZeroSize(l: Layer)
  {
    l.bbox.x2 - l.bbox.x1 == 0 || l.bbox.y2 - l.bbox.y1 == 0
  }

  predicate Inside(b: BBox, y: int, x: int)
  {
    b.y1 <= y < b.y2 && b.x1 <= x < b.x2
  }

  /** A pixel of the cropped image; positions the crop does not have read as
      transparent black, the fill of the padding. */
  function CropAt(g: Grid, r: int, c: int): Rgba8
  {
    if 0 <= r < |g| && 0 <= c < |g[r]| then g[r][c] else Clear8
  }

  predicate IsCanvas(g: Grid, w: nat, h: nat)
  {
    |g| == h && forall y :: 0 <= y < h ==> |g[y]| == w
  }

  /** `getbbox() is None`: no pixel has a non-zero alpha. */
  predicate GridEmpty(g: Grid)
  {
    forall y, x :: 0 <= y < |g| && 0 <= x < |g[y]| ==> g[y][x].a == 0
  }

  /** `ImageOps.expand(layer.topil(), border=(x1, y1, w - x2, h - y2), fill=0)`:
      the crop placed at its box on a transparent canvas of `w` by `h`; parts of
      the box that lie off the canvas are cut away. */
  function PadToCanvas(l: Layer, w: nat, h: nat): (g: Grid)
    ensures IsCanvas(g, w, h)
    ensures forall y, x :: 0 <= y < h && 0 <= x < w && !Inside(l.bbox, y, x) ==> g[y][x] == Clear8
  {
    seq(h, y => seq(w, x => if Inside(l.bbox, y, x) then CropAt(l.pixels, y - l.bbox.y1, x - l.bbox.x1) else Clear8))
  }

  /** The crop has exactly the size of its box. */
  predicate WellFormed(l: Layer)
  {
    && |l.pixels| == l.bbox.y2 - l.bbox.y1
    && forall r :: 0 <= r < |l.pixels| ==> |l.pixels[r]| == l.bbox.x2 - l.bbox.x1
  }

  predicate WithinCanvas(b: BBox, w: nat, h: nat)
  {
    0 <= b.x1 <= b.x2 <= w && 0 <= b.y1 <= b.y2 <= h
  }

  /** The part of a canvas-sized grid under a box. */
  function Crop(g: Grid, b: BBox, w: nat, h: nat): (c: Grid)
    requires IsCanvas(g, w, h) && WithinCanvas(b, w, h)
    ensures |c| == b.y2 - b.y1
  {
    seq(b.y2 - b.y1, r requires 0 <= r < b.y2 - b.y1 => g[b.y1 + r][b.x1..b.x2])
  }

  /** Padding loses nothing: a well-formed layer whose box lies on the canvas is
      recovered by cropping its padded image back to the box. */
  lemma PadThenCrop(l: Layer, w: nat, h: nat)
    requires WellFormed(l) && WithinCanvas(l.bbox, w, h)
    ensures Crop(PadToCanvas(l, w, h), l.bbox, w, h) == l.pixels
  {
    var g := PadToCanvas(l, w, h);
    var c := Crop(g, l.bbox, w, h);
    forall r | 0 <= r < |c| ensures c[r] == l.pixels[r] {
      assert |c[r]| == l.bbox.x2 - l.bbox.x1 == |l.pixels[r]|;
      forall x | 0 <= x < |c[r]| ensures c[r][x] == l.pixels[r][x] {
        assert c[r] == g[l.bbox.y1 + r][l.bbox.x1..l.bbox.x2];
        assert Inside(l.bbox, l.bbox.y1 + r, l.bbox.x1 + x);
        assert c[r][x] == g[l.bbox.y1 + r][l.bbox.x1 + x];
        assert g[l.bbox.y1 + r][l.bbox.x1 + x] == CropAt(l.pixels, r, x);
      }
    }
  }

  function Record(l: Layer, image: Grid, isClip: bool): LayerRecord
  {
    LayerRecord(l.name, image, l.opacity, l.visible, l.mode, isClip)
  }

  /** A top-level layer is kept when it has a non-zero size and its padded image
      is not fully transparent. */
  predicate ParentKept(d: DocLayer, w: nat, h: nat)
  {
    !ZeroSize(d.layer) && !GridEmpty(PadToCanvas(d.layer, w, h))
  }

  /** A clip layer is kept when its padded image is not fully transparent (its
      size is not checked; the model pads a zero-size clip to a transparent canvas). */
  predicate ClipKept(c: Layer, w: nat, h: nat)
  {
    !GridEmpty(PadToCanvas(c, w, h))
  }

  /** The records the inner loop appends for the clips of a kept layer. */
  function ClipRecords(clips: seq<Layer>, w: nat, h: nat): seq<LayerRecord>
    decreases |clips|
  {
    if clips == [] then []
    else
      var n := |clips| - 1;
      ClipRecords(clips[..n], w, h)
        + (if ClipKept(clips[n], w, h) then [Record(clips[n], PadToCanvas(clips[n], w, h), true)] else [])
  }

  /** The records one top-level layer contributes: none when it is skipped
      (the `continue`s skip its clips too), else itself followed by its kept clips. */
  function Group(d: DocLayer, w: nat, h: nat): seq<LayerRecord>
  {
    if ParentKept(d, w, h) then [Record(d.layer, PadToCanvas(d.layer, w, h), false)] + ClipRecords(d.clips, w, h)
    else []
  }

  /** The record list that `psd2pil` returns for a layer list. */
  function Extract(ls: seq<DocLayer>, w: nat, h: nat): seq<LayerRecord>
    decreases |ls|
  {
    if ls == [] then []
    else
      var n := |ls| - 1;
      Extract(ls[..n], w, h) + Group(ls[n], w, h)
  }

  /** The inner loop of `psd2pil`: append every clip whose padded image is not
      empty, tagged `is_clip`. */
  method AppendClips(before: seq<LayerRecord>, clips: seq<Layer>, width: nat, height: nat)
    returns (layers: seq<LayerRecord>)
    ensures layers == before + ClipRecords(clips, width, height)
  {
    layers := before;
    var j := 0;
    while j < |clips|
      invariant 0 <= j <= |clips|
      invariant layers == before + ClipRecords(clips[..j], width, height)
    {
      var clip := clips[j];
      assert clips[..j + 1][..j] == clips[..j];
      var clipImg := PadToCanvas(clip, width, height);
      if !GridEmpty(clipImg) {
        layers := layers + [Record(clip, clipImg, true)];
      }
      j := j + 1;
    }
    assert clips[..|clips|] == clips;
  }

  /** One more top-level layer appends its group. */
  lemma ExtractStep(ls: seq<DocLayer>, i: nat, w: nat, h: nat)
    requires i < |ls|
    ensures Extract(ls[..i + 1], w, h) == Extract(ls[..i], w, h) + Group(ls[i], w, h)
  {
    assert ls[..i + 1][..i] == ls[..i];
  }

  lemma AppendAssoc<T>(a: seq<T>, b: seq<T>, c: seq<T>)
    ensures (a + b) + c == a + (b + c)
  {
  }

  /** `psd2pil`: walk the layers, skip zero-size and empty ones, append each kept
      layer and then each of its non-empty clips. */
  method Psd2Pil(doc: Document) returns (layers: seq<LayerRecord>)
    ensures layers == Extract(doc.layers, doc.width, doc.height)
  {
    var width, height := doc.width, doc.height;
    layers := [];
    var i := 0;
    while i < |doc.layers|
      invariant 0 <= i <= |doc.layers|
      invariant layers == Extract(doc.layers[..i], width, height)
    {
      var d := doc.layers[i];
      ExtractStep(doc.layers, i, width, height);
      if ZeroSize(d.layer) {
        i := i + 1;
        continue;
      }
      var layerImg := PadToCanvas(d.layer, width, height);
      if GridEmpty(layerImg) {
        i := i + 1;
        continue;
      }
      ghost var before := layers;
      layers := layers + [Record(d.layer, layerImg, false)];
      layers := AppendClips(layers, d.clips, width, height);
      AppendAssoc(before, [Record(d.layer, layerImg, false)], ClipRecords(d.clips, width, height));
      i := i + 1;
    }
    assert doc.layers[..|doc.layers|] == doc.layers;
  }

  // ---------------------------------------------------------------------------
  // Where each record comes from.

  /** The source of a record: top-level layer `layer`, or clip `clip` of it. */
  datatype Origin = Parent(layer: nat) | ClipOf(layer: nat, clip: nat)

  /** The origin names an existing layer or clip. */
  predicate Names(ls: seq<DocLayer>, o: Origin)
  {
    o.layer < |ls| && (o.ClipOf? ==> o.clip < |ls[o.layer].clips|)
  }

  function Source(ls: seq<DocLayer>, o: Origin): Layer
    requires Names(ls, o)
  {
    if o.Parent? then ls[o.layer].layer else ls[o.layer].clips[o.clip]
  }

  /** The record built for an origin. */
  function RecordAt(ls: seq<DocLayer>, o: Origin, w: nat, h: nat): LayerRecord
    requires Names(ls, o)
  {
    Record(Source(ls, o), PadToCanvas(Source(ls, o), w, h), o.ClipOf?)
  }

  /** The origins that `psd2pil` emits a record for: kept top-level layers, and
      the kept clips of kept top-level layers. */
  predicate Selected(ls: seq<DocLayer>, o: Origin, w: nat, h: nat)
  {
    && Names(ls, o)
    && ParentKept(ls[o.layer], w, h)
    && (o.ClipOf? ==> ClipKept(ls[o.layer].clips[o.clip], w, h))
  }

  /** Emission order: by layer, a layer before its clips, clips in order. */
  predicate Precedes(a: Origin, b: Origin)
  {
    || a.layer < b.layer
    || (a.layer == b.layer && a.Parent? && b.ClipOf?)
    || (a.layer == b.layer && a.ClipOf? && b.ClipOf? && a.clip < b.clip)
  }

  function ClipOrigins(k: nat, clips: seq<Layer>, w: nat, h: nat): (os: seq<Origin>)
    ensures |os| == |ClipRecords(clips, w, h)|
    decreases |clips|
  {
    if clips == [] then []
    else
      var n := |clips| - 1;
      ClipOrigins(k, clips[..n], w, h) + (if ClipKept(clips[n], w, h) then [ClipOf(k, n)] else [])
  }

  function GroupOrigins(k: nat, d: DocLayer, w: nat, h: nat): (os: seq<Origin>)
    ensures |os| == |Group(d, w, h)|
  {
    if ParentKept(d, w, h) then [Parent(k)] + ClipOrigins(k, d.clips, w, h) else []
  }

  /** The origin of every record of `Extract(ls, w, h)`, position by position. */
  function Origins(ls: seq<DocLayer>, w: nat, h: nat): (os: seq<Origin>)
    ensures |os| == |Extract(ls, w, h)|
    decreases |ls|
  {
    if ls == [] then []
    else
      var n := |ls| - 1;
      Origins(ls[..n], w, h) + GroupOrigins(n, ls[n], w, h)
  }

  /** Clips of layer `k` below `bound`, in increasing clip order. */
  predicate ClipShape(os: seq<Origin>, k: nat, bound: nat)
  {
    && (forall i :: 0 <= i < |os| ==> os[i].ClipOf? && os[i].layer == k && os[i].clip < bound)
    && (forall i, j :: 0 <= i < j < |os| ==> os[i].clip < os[j].clip)
  }

  /** The clip origins of layer `k` are clips of `k`, in increasing clip order. */
  lemma {:induction false} ClipOriginsShape(k: nat, clips: seq<Layer>, w: nat, h: nat)
    ensures ClipShape(ClipOrigins(k, clips, w, h), k, |clips|)
    decreases |clips|
  {
    if clips != [] {
      var n := |clips| - 1;
      ClipOriginsShape(k, clips[..n], w, h);
      var os0 := ClipOrigins(k, clips[..n], w, h);
      var os := ClipOrigins(k, clips, w, h);
      assert os == os0 + (if ClipKept(clips[n], w, h) then [ClipOf(k, n)] else []);
      forall i | 0 <= i < |os| ensures os[i].ClipOf? && os[i].layer == k && os[i].clip < |clips| {
        if i < |os0| { assert os[i] == os0[i]; } else { assert os[i] == ClipOf(k, n); }
      }
      forall i, j | 0 <= i < j < |os| ensures os[i].clip < os[j].clip {
        assert os[i] == os0[i];
        if j < |os0| { assert os[j] == os0[j]; } else { assert os[j] == ClipOf(k, n); }
      }
    }
  }

  lemma ClipOriginsSpec(ls: seq<DocLayer>, k: nat, clips: seq<Layer>, w: nat, h: nat)
    requires k < |ls| && ParentKept(ls[k], w, h) && clips <= ls[k].clips
    ensures ClipShape(ClipOrigins(k, clips, w, h), k, |clips|)
    ensures var os := ClipOrigins(k, clips, w, h);
      && (forall i :: 0 <= i < |os| ==>
            && Selected(ls, os[i], w, h)
            && ClipRecords(clips, w, h)[i] == RecordAt(ls, os[i], w, h))
      && (forall c :: 0 <= c < |clips| && ClipKept(clips[c], w, h) ==> ClipOf(k, c) in os)
  {
    ClipOriginsShape(k, clips, w, h);
    ClipOriginsRecords(ls, k, clips, w, h);
    ClipOriginsComplete(k, clips, w, h);
  }

  /** Each clip origin names a selected clip of layer `k`, and the clip record
      at its position is the record built for it. */
  lemma {:induction false} ClipOriginsRecords(ls: seq<DocLayer>, k: nat, clips: seq<Layer>, w: nat, h: nat)
    requires k < |ls| && ParentKept(ls[k], w, h) && clips <= ls[k].clips
    ensures var os := ClipOrigins(k, clips, w, h);
      forall i :: 0 <= i < |os| ==>
        && Selected(ls, os[i], w, h)
        && ClipRecords(clips, w, h)[i] == RecordAt(ls, os[i], w, h)
    decreases |clips|
  {
    if clips != [] {
      var n := |clips| - 1;
      assert clips[..n] <= ls[k].clips;
      ClipOriginsRecords(ls, k, clips[..n], w, h);
      assert clips[n] == ls[k].clips[n];
      var os0 := ClipOrigins(k, clips[..n], w, h);
      var rs0 := ClipRecords(clips[..n], w, h);
      var os := ClipOrigins(k, clips, w, h);
      var rs := ClipRecords(clips, w, h);
      forall i | 0 <= i < |os| ensures Selected(ls, os[i], w, h) && rs[i] == RecordAt(ls, os[i], w, h) {
        if i < |os0| {
          assert os[i] == os0[i] && rs[i] == rs0[i];
        } else {
          assert os[i] == ClipOf(k, n);
          assert rs[i] == Record(clips[n], PadToCanvas(clips[n], w, h), true);
        }
      }
    }
  }

  /** Every kept clip has its origin among the clip origins. */
  lemma {:induction false} ClipOriginsComplete(k: nat, clips: seq<Layer>, w: nat, h: nat)
    ensures forall c :: 0 <= c < |clips| && ClipKept(clips[c], w, h) ==> ClipOf(k, c) in ClipOrigins(k, clips, w, h)
    decreases |clips|
  {
    if clips != [] {
      var n := |clips| - 1;
      ClipOriginsComplete(k, clips[..n], w, h);
      var os0 := ClipOrigins(k, clips[..n], w, h);
      var os := ClipOrigins(k, clips, w, h);
      assert os == os0 + (if ClipKept(clips[n], w, h) then [ClipOf(k, n)] else []);
      forall c | 0 <= c < |clips| && ClipKept(clips[c], w, h) ensures ClipOf(k, c) in os {
        if c < n {
          assert clips[..n][c] == clips[c];
          assert ClipOf(k, c) in os0;
        }
      }
    }
  }

  lemma GroupOriginsSpec(ls: seq<DocLayer>, k: nat, w: nat, h: nat)
    requires k < |ls|
    ensures var os := GroupOrigins(k, ls[k], w, h);
      && (forall i :: 0 <= i < |os| ==>
            && os[i].layer == k && Selected(ls, os[i], w, h)
            && Group(ls[k], w, h)[i] == RecordAt(ls, os[i], w, h))
      && (forall i, j :: 0 <= i < j < |os| ==> Precedes(os[i], os[j]))
      && (forall i :: 0 <= i < |os| && os[i].ClipOf? ==> i > 0)
      && (forall o :: Selected(ls, o, w, h) && o.layer == k ==> o in os)
  {
    GroupOriginsRecords(ls, k, w, h);
    GroupOriginsOrder(ls, k, w, h);
    GroupOriginsComplete(ls, k, w, h);
  }

  /** Each origin of a group names a selected source of that record, in order. */
  lemma GroupOriginsRecords(ls: seq<DocLayer>, k: nat, w: nat, h: nat)
    requires k < |ls|
    ensures var os := GroupOrigins(k, ls[k], w, h);
      && (forall i :: 0 <= i < |os| ==>
            && os[i].layer == k && Selected(ls, os[i], w, h)
            && Group(ls[k], w, h)[i] == RecordAt(ls, os[i], w, h))
  {
    if ParentKept(ls[k], w, h) {
      ClipOriginsSpec(ls, k, ls[k].clips, w, h);
      var co := ClipOrigins(k, ls[k].clips, w, h);
      var cr := ClipRecords(ls[k].clips, w, h);
      var os := GroupOrigins(k, ls[k], w, h);
      var g := Group(ls[k], w, h);
      assert os == [Parent(k)] + co;
      assert g == [Record(ls[k].layer, PadToCanvas(ls[k].layer, w, h), false)] + cr;
      forall i | 0 <= i < |os|
        ensures os[i].layer == k && Selected(ls, os[i], w, h) && g[i] == RecordAt(ls, os[i], w, h)
      {
        if i > 0 {
          assert os[i] == co[i - 1] && g[i] == cr[i - 1];
        }
      }
    }
  }

  /** A group starts with its layer, followed by its clips in order. */
  lemma GroupOriginsOrder(ls: seq<DocLayer>, k: nat, w: nat, h: nat)
    requires k < |ls|
    ensures var os := GroupOrigins(k, ls[k], w, h);
      && (forall i, j :: 0 <= i < j < |os| ==> Precedes(os[i], os[j]))
      && (forall i :: 0 <= i < |os| && os[i].ClipOf? ==> i > 0)
  {
    if ParentKept(ls[k], w, h) {
      ClipOriginsShape(k, ls[k].clips, w, h);
      ParentThenClips(k, ClipOrigins(k, ls[k].clips, w, h), |ls[k].clips|);
    }
  }

  /** A parent followed by its clips in increasing order is in emission order. */
  lemma ParentThenClips(k: nat, co: seq<Origin>, bound: nat)
    requires ClipShape(co, k, bound)
    ensures var os := [Parent(k)] + co;
      && (forall i, j :: 0 <= i < j < |os| ==> Precedes(os[i], os[j]))
      && (forall i :: 0 <= i < |os| && os[i].ClipOf? ==> i > 0)
  {
    var os := [Parent(k)] + co;
    forall i, j | 0 <= i < j < |os| ensures Precedes(os[i], os[j]) {
      var b := co[j - 1];
      assert os[j] == b && b.ClipOf? && b.layer == k;
      if i > 0 {
        var a := co[i - 1];
        assert os[i] == a && a.ClipOf? && a.layer == k && a.clip < b.clip;
      } else {
        assert os[i] == Parent(k);
      }
    }
  }

  /** Every selected source of layer `k` has an origin in its group. */
  lemma GroupOriginsComplete(ls: seq<DocLayer>, k: nat, w: nat, h: nat)
    requires k < |ls|
    ensures forall o :: Selected(ls, o, w, h) && o.layer == k ==> o in GroupOrigins(k, ls[k], w, h)
  {
    if ParentKept(ls[k], w, h) {
      ClipOriginsSpec(ls, k, ls[k].clips, w, h);
      var co := ClipOrigins(k, ls[k].clips, w, h);
      assert GroupOrigins(k, ls[k], w, h) == [Parent(k)] + co;
      forall o | Selected(ls, o, w, h) && o.layer == k ensures o in [Parent(k)] + co {
        if o.ClipOf? {
          assert o == ClipOf(k, o.clip);
          assert o in co;
        }
      }
    }
  }

  /** An origin into a prefix of the layer list names the same layer in the whole list. */
  lemma LiftOrigin(ls: seq<DocLayer>, n: nat, o: Origin, w: nat, h: nat)
    requires n <= |ls| && Names(ls[..n], o)
    ensures Names(ls, o) && ls[..n][o.layer] == ls[o.layer]
    ensures Selected(ls[..n], o, w, h) == Selected(ls, o, w, h)
    ensures RecordAt(ls[..n], o, w, h) == RecordAt(ls, o, w, h)
  {
  }

  /** Record `i` of the result is the padded image of the layer or clip that
      `Origins` names for position `i`, it is tagged `is_clip` exactly when that
      is a clip, and that origin was selected (its top-level layer was kept). */
  lemma {:induction false} ExtractFromOrigins(ls: seq<DocLayer>, w: nat, h: nat)
    ensures forall i :: 0 <= i < |Origins(ls, w, h)| ==>
        && Selected(ls, Origins(ls, w, h)[i], w, h)
        && Extract(ls, w, h)[i] == RecordAt(ls, Origins(ls, w, h)[i], w, h)
        && (Extract(ls, w, h)[i].isClip <==> Origins(ls, w, h)[i].ClipOf?)
    decreases |ls|
  {
    if ls != [] {
      var n := |ls| - 1;
      var pre := ls[..n];
      var os0, rs0 := Origins(pre, w, h), Extract(pre, w, h);
      var g, rg := GroupOrigins(n, ls[n], w, h), Group(ls[n], w, h);
      var os, rs := Origins(ls, w, h), Extract(ls, w, h);
      assert os == os0 + g && rs == rs0 + rg;
      ExtractFromOrigins(pre, w, h);
      GroupOriginsSpec(ls, n, w, h);
      forall i | 0 <= i < |os|
        ensures Selected(ls, os[i], w, h) && rs[i] == RecordAt(ls, os[i], w, h)
      {
        if i < |os0| {
          assert os[i] == os0[i] && rs[i] == rs0[i];
          assert Selected(pre, os0[i], w, h) && rs0[i] == RecordAt(pre, os0[i], w, h);
          LiftOrigin(ls, n, os0[i], w, h);
        } else {
          assert os[i] == g[i - |os0|] && rs[i] == rg[i - |os0|];
        }
      }
    }
  }

  /** Every layer and clip that is selected gets a record and nothing else does;
      records come in emission order (so each layer's clips come right after it). */
  lemma {:induction false} OriginsExact(ls: seq<DocLayer>, w: nat, h: nat)
    ensures var os := Origins(ls, w, h);
      && (forall o :: o in os <==> Selected(ls, o, w, h))
      && (forall i, j :: 0 <= i < j < |os| ==> Precedes(os[i], os[j]))
      && (forall i :: 0 <= i < |os| ==> os[i].layer < |ls|)
    decreases |ls|
  {
    if ls != [] {
      var n := |ls| - 1;
      var pre := ls[..n];
      OriginsExact(pre, w, h);
      GroupOriginsSpec(ls, n, w, h);
      ExtractFromOrigins(ls, w, h);
      var os0 := Origins(pre, w, h);
      var g := GroupOrigins(n, ls[n], w, h);
      forall o | Selected(ls, o, w, h) ensures o in os0 + g {
        if o.layer < n {
          assert pre[o.layer] == ls[o.layer];
          assert Selected(pre, o, w, h);
        }
      }
      forall o | o in os0 ensures Selected(ls, o, w, h) {
        assert Selected(pre, o, w, h);
        assert pre[o.layer] == ls[o.layer];
      }
    }
  }

  /** Every clip record follows its own top-level layer's records: the record
      just before it comes from the same top-level layer, and there is one. */
  lemma ClipFollowsParent(ls: seq<DocLayer>, w: nat, h: nat)
    ensures var os := Origins(ls, w, h);
      forall i :: 0 <= i < |os| && os[i].ClipOf? ==> i > 0 && os[i - 1].layer == os[i].layer
  {
    var os := Origins(ls, w, h);
    OriginsExact(ls, w, h);
    forall i | 0 <= i < |os| && os[i].ClipOf? ensures i > 0 && os[i - 1].layer == os[i].layer {
      var o := os[i];
      assert o in os;
      assert Selected(ls, o, w, h);
      assert Selected(ls, Parent(o.layer), w, h);
      assert Parent(o.layer) in os;
      var p :| 0 <= p < |os| && os[p] == Parent(o.layer);
      ClipAfterParent(os, i, p);
    }
  }

  /** In an emission-ordered list, the entry just before a clip whose layer
      appears in the list belongs to the same layer. */
  lemma ClipAfterParent(os: seq<Origin>, i: nat, p: nat)
    requires forall a, b :: 0 <= a < b < |os| ==> Precedes(os[a], os[b])
    requires i < |os| && os[i].ClipOf? && p < |os| && os[p] == Parent(os[i].layer)
    ensures i > 0 && os[i - 1].layer == os[i].layer
  {
    assert !Precedes(os[i], os[p]);
    assert p < i;
    if p < i - 1 {
      assert Precedes(os[p], os[i - 1]) && Precedes(os[i - 1], os[i]);
    }
  }

  /** Every record is a canvas-sized, non-empty image, transparent outside the
      box of the layer it came from. */
  lemma ExtractRecordsAreCanvas(ls: seq<DocLayer>, w: nat, h: nat)
    ensures var os := Origins(ls, w, h);
      forall i :: 0 <= i < |os| ==>
        var img := Extract(ls, w, h)[i].image;
        && Names(ls, os[i])
        && IsCanvas(img, w, h) && !GridEmpty(img)
        && forall y, x :: 0 <= y < h && 0 <= x < w && !Inside(Source(ls, os[i]).bbox, y, x) ==> img[y][x] == Clear8
  {
    ExtractFromOrigins(ls, w, h);
  }
}
