/** `PSDPickleDataset` and `PSDPreviewPairDataset`: a pickled sample is
    resampled to its finishing size, assembled into float layers, cut down to
    `max_layers` and packed; the preview pair loader reads two previews of one
    sample and maps them to [-1, 1]. Warping and resizing are library calls and
    enter as opaque functions. */
module Dataset {
  import opened Pixels
  import opened Matrix
  import opened Filters
  import opened Assembly
  import Packing
  import Compositing

  /** A pickled sample: its layers and preview, the preview's size, the
      alignment transform and the finishing size. */
  datatype Sample = Sample(layers: seq<LayerData>, preview: seq<Rgba8>, width: nat, height: nat,
                           transform: Mat3, finalWidth: nat, finalHeight: nat)

  /** The layers and the preview are `width * height` images. */
  predicate WellFormed(s: Sample)
  {
    SameSize(s.layers, s.width * s.height) && |s.preview| == s.width * s.height
  }

  /** `cv2.warpPerspective(x, M, (w, h))` and `img.resize((w, h), ANTIALIAS)`. */
  datatype Resamplers = Resamplers(warp: (seq<Rgba8>, Mat3, nat, nat) -> seq<Rgba8>,
                                   resize: (seq<Rgba8>, nat, nat) -> seq<Rgba8>)

  /** Both give images of the requested size. */
  ghost predicate Sizing(rs: Resamplers)
  {
    && (forall img, m, w: nat, h: nat :: |rs.warp(img, m, w, h)| == w * h)
    && (forall img, w: nat, h: nat :: |rs.resize(img, w, h)| == w * h)
  }

  // --------------------------------------------------------------- resampling

  datatype Resample = Warp | Resize | Keep

  /** `warp and norm(M - I) > 5e-3`, else `resize_to_final` with a preview of
      another size, else nothing; the norm is compared squared. */
  function Choice(s: Sample, warp: bool, resizeToFinal: bool): Resample
  {
    if warp && DistSqToI(s.transform) > TolSq then Warp
    else if resizeToFinal && (s.width != s.finalWidth || s.height != s.finalHeight) then Resize
    else Keep
  }

  /** The number of pixels an image has after the choice. */
  function TargetSize(s: Sample, c: Resample): nat
  {
    if c == Keep then s.width * s.height else s.finalWidth * s.finalHeight
  }

  /** An aligned (identity) transform is never warped, and a sample already at
      its finishing size is never resized; resizing or warping always reaches
      the finishing size, and so does keeping the size when resizing was asked
      for. */
  lemma ChoiceSpec(s: Sample, warp: bool, resizeToFinal: bool)
    ensures s.transform == I ==> Choice(s, warp, resizeToFinal) != Warp
    ensures s.width == s.finalWidth && s.height == s.finalHeight ==> Choice(s, warp, resizeToFinal) != Resize
    ensures Choice(s, warp, resizeToFinal) == Warp <==> warp && DistSqToI(s.transform) > TolSq
    ensures (warp && DistSqToI(s.transform) > TolSq) || resizeToFinal ==>
      TargetSize(s, Choice(s, warp, resizeToFinal)) == s.finalWidth * s.finalHeight
  {
    DistSqToIOfI();
  }

  function ResampleImage(img: seq<Rgba8>, c: Resample, s: Sample, rs: Resamplers): seq<Rgba8>
  {
    match c
    case Warp => rs.warp(img, s.transform, s.finalWidth, s.finalHeight)
    case Resize => rs.resize(img, s.finalWidth, s.finalHeight)
    case Keep => img
  }

  /** The sample's layers after the choice. */
  function ResampledLayers(s: Sample, c: Resample, rs: Resamplers): (ls: seq<LayerData>)
    ensures |ls| == |s.layers|
  {
    seq(|s.layers|, k requires 0 <= k < |s.layers| =>
      s.layers[k].(image := ResampleImage(s.layers[k].image, c, s, rs)))
  }

  /** Resampling changes the images only, and gives every layer the target size. */
  lemma ResampledSpec(s: Sample, c: Resample, rs: Resamplers)
    requires WellFormed(s) && Sizing(rs)
    ensures SameSize(ResampledLayers(s, c, rs), TargetSize(s, c))
    ensures forall k :: 0 <= k < |s.layers| ==>
      var l, l' := s.layers[k], ResampledLayers(s, c, rs)[k];
      && l'.name == l.name && l'.opacity == l.opacity && l'.visible == l.visible
      && l'.mode == l.mode && l'.isClip == l.isClip
  {
    var ls := ResampledLayers(s, c, rs);
    forall k | 0 <= k < |ls| ensures |ls[k].image| == TargetSize(s, c) {
      assert ls[k].image == ResampleImage(s.layers[k].image, c, s, rs);
      assert |s.layers[k].image| == s.width * s.height;
    }
  }

  /** The loop over `sample['layers']` that warps or resizes each image. */
  method ResampleLayers(s: Sample, c: Resample, rs: Resamplers) returns (ls: seq<LayerData>)
    ensures ls == ResampledLayers(s, c, rs)
  {
    if c == Keep {
      assert ResampledLayers(s, c, rs) == s.layers;
      return s.layers;
    }
    ls := [];
    for i := 0 to |s.layers|
      invariant ls == ResampledLayers(s, c, rs)[..i]
    {
      var l := s.layers[i];
      ls := ls + [l.(image := ResampleImage(l.image, c, s, rs))];
    }
    assert ResampledLayers(s, c, rs)[..|s.layers|] == ResampledLayers(s, c, rs);
  }

  // ------------------------------------------------------------ the pkl loader

  function Images(ts: seq<Tensor>): (imgs: seq<seq<Px>>)
    ensures |imgs| == |ts| && forall k :: 0 <= k < |ts| ==> imgs[k] == ts[k].img
  {
    seq(|ts|, k requires 0 <= k < |ts| => ts[k].img)
  }

  function Modes(ts: seq<Tensor>): (ms: seq<BlendMode>)
    ensures |ms| == |ts| && forall k :: 0 <= k < |ts| ==> ms[k] == ts[k].mode
  {
    seq(|ts|, k requires 0 <= k < |ts| => ts[k].mode)
  }

  /** The loop splitting `layers` into `tensors` and `blend_modes`. */
  method Unzip(slots: seq<Slot>, ghost n: nat) returns (tensors: seq<seq<Px>>, modes: seq<BlendMode>)
    requires Sized(slots, n)
    ensures tensors == Images(Contents(slots)) && modes == Modes(Contents(slots))
    ensures Uniform(tensors, n)
  {
    tensors, modes := [], [];
    for i := 0 to |slots|
      invariant |tensors| == |modes| == i
      invariant forall k :: 0 <= k < i ==> tensors[k] == slots[k].img[..] && modes[k] == slots[k].mode
    {
      tensors := tensors + [slots[i].img[..]];
      modes := modes + [slots[i].mode];
    }
  }

  /** The layers `pil2tensor` returns for a sample: its layers resampled, its
      preview as stored. */
  function Loaded(s: Sample, filter: PostFilter, removeOccluded: bool, warp: bool, resizeToFinal: bool,
                  rs: Resamplers): Result<seq<Tensor>>
    requires WellFormed(s) && Sizing(rs)
    requires filter == DropFullPostFilter ==> |s.preview| > 0
  {
    var c := Choice(s, warp, resizeToFinal);
    ResampledSpec(s, c, rs);
    Assemble(ResampledLayers(s, c, rs), s.preview, filter, removeOccluded, TargetSize(s, c))
  }

  /** The entries of a paired subsequence are entries of the input. */
  lemma PairedUniform(ys: seq<seq<Px>>, ms: seq<BlendMode>, xs: seq<seq<Px>>, modes: seq<BlendMode>, n: nat)
    requires Packing.PairedSubsequence(ys, ms, xs, modes) && Uniform(xs, n)
    ensures Uniform(ys, n)
  {
    var idx :| Embeds(idx, ys, xs) && Embeds(idx, ms, modes);
    assert forall k :: 0 <= k < |ys| ==> ys[k] == xs[idx[k]];
  }

  /** `pil2tensor` on resampled layers, and the loop splitting its list into
      `tensors` and `blend_modes`. */
  method AssembleLists(layers: seq<LayerData>, preview: seq<Rgba8>, filter: PostFilter, removeOccluded: bool,
                       ghost n: nat)
    returns (failed: Option<Error>, tensors: seq<seq<Px>>, blendModes: seq<BlendMode>)
    requires SameSize(layers, n)
    requires filter == DropFullPostFilter ==> |preview| > 0
    ensures var a := Assemble(layers, preview, filter, removeOccluded, n);
      && (a.Err? ==> failed == Some(a.error))
      && (a.Ok? ==> failed.None? && tensors == Images(a.value) && blendModes == Modes(a.value)
                    && Uniform(tensors, n))
  {
    ghost var a := Assemble(layers, preview, filter, removeOccluded, n);
    var out, previewPx := Pil2Tensor(layers, preview, filter, removeOccluded, n);
    if out.Err? {
      assert a == Err(out.error);
      return Some(out.error), [], [];
    }
    ghost var ts := Contents(out.value);
    assert a == Ok(ts);
    tensors, blendModes := Unzip(out.value, n);
    failed := None;
  }

  /** The first half of `load_pkl_data`: resample the layers, run `pil2tensor`
      and split its list. It fails exactly when `Loaded` does. */
  method LoadLists(s: Sample, filter: PostFilter, removeOccluded: bool, warp: bool, resizeToFinal: bool,
                   rs: Resamplers)
    returns (failed: Option<Error>, tensors: seq<seq<Px>>, blendModes: seq<BlendMode>)
    requires WellFormed(s) && Sizing(rs)
    requires filter == DropFullPostFilter ==> |s.preview| > 0
    ensures var a := Loaded(s, filter, removeOccluded, warp, resizeToFinal, rs);
      && (a.Err? ==> failed == Some(a.error))
      && (a.Ok? ==> failed.None? && tensors == Images(a.value) && blendModes == Modes(a.value)
                    && Uniform(tensors, TargetSize(s, Choice(s, warp, resizeToFinal))))
  {
    var c := Choice(s, warp, resizeToFinal);
    var layers := ResampleLayers(s, c, rs);
    ResampledSpec(s, c, rs);
    failed, tensors, blendModes := AssembleLists(layers, s.preview, filter, removeOccluded, TargetSize(s, c));
  }

  /** `load_pkl_data` with no augmentation. The third result is the number of
      layers in the pickle, before any filtering. The loader fails where
      `pil2tensor` does; otherwise `images`/`modes` are the layers left by the
      random drop, at most `maxLayers` of them taken in order from `pil2tensor`'s
      list with their modes, and the result is their packing. */
  method LoadPklData(s: Sample, filter: PostFilter, removeOccluded: bool, warp: bool, resizeToFinal: bool,
                     maxLayers: nat, rs: Resamplers)
    returns (r: Result<Packing.Packed>, count: nat, ghost images: seq<seq<Px>>, ghost modes: seq<BlendMode>)
    requires WellFormed(s) && Sizing(rs)
    requires filter == DropFullPostFilter ==> |s.preview| > 0
    ensures count == |s.layers|
    ensures var a, n := Loaded(s, filter, removeOccluded, warp, resizeToFinal, rs),
                        TargetSize(s, Choice(s, warp, resizeToFinal));
      && (a.Err? ==> r == Err(a.error))
      && (a.Ok? ==>
            && |images| == |modes| == (if |a.value| <= maxLayers then |a.value| else maxLayers)
            && Packing.PairedSubsequence(images, modes, Images(a.value), Modes(a.value))
            && Uniform(images, n)
            && r == Packing.Pack(images, modes, maxLayers, n))
  {
    count := |s.layers|;
    var failed, tensors, blendModes := LoadLists(s, filter, removeOccluded, warp, resizeToFinal, rs);
    if failed.Some? {
      return Err(failed.value), count, [], [];
    }
    ghost var n := TargetSize(s, Choice(s, warp, resizeToFinal));
    ghost var xs, ms := tensors, blendModes;
    tensors, blendModes := Packing.RandomDrop(tensors, blendModes, maxLayers);
    PairedUniform(tensors, blendModes, xs, ms, n);
    images, modes := tensors, blendModes;
    r := Packing.Pack(tensors, blendModes, maxLayers, n);
  }

  /** A loaded stack fails only for an empty layer list or an unknown mode;
      otherwise it holds exactly `maxLayers` slots when `maxLayers` is at least
      the number of layers `pil2tensor` kept. */
  lemma LoadedStack(ts: seq<Tensor>, images: seq<seq<Px>>, modes: seq<BlendMode>, maxLayers: nat, n: nat)
    requires |images| == |modes| == (if |ts| <= maxLayers then |ts| else maxLayers)
    requires Uniform(images, n)
    ensures var p := Packing.Pack(images, modes, maxLayers, n);
      && (p.Err? ==> p.error == EmptyLayerList || p.error.UnknownBlendMode?)
      && (p.Err? && images != [] ==> p.error.UnknownBlendMode?)
      && (p.Ok? ==> |p.value.images| == |p.value.rows| == (if maxLayers < |ts| then maxLayers else
                                                           if |ts| == 0 then 0 else maxLayers))
  {
    Packing.PackErrors(images, modes, maxLayers, n);
    var p := Packing.Pack(images, modes, maxLayers, n);
    if p.Ok? {
      Packing.PackSpec(images, modes, maxLayers, n);
    }
  }

  // -------------------------------------------------------- the preview loader

  /** The RGB of a pixel as floats, `[:, :, :3]` of `/ 255.`. */
  function RgbOf(q: Rgba8): Compositing.Rgb
  {
    Compositing.Rgb(Unit(q.r), Unit(q.g), Unit(q.b))
  }

  /** `load_preview_data` with no augmentation: the preview itself, warped or
      resized by the same choice as the layers, as float RGB. */
  function LoadPreviewData(s: Sample, warp: bool, resizeToFinal: bool, rs: Resamplers): (out: seq<Compositing.Rgb>)
  {
    var img := ResampleImage(s.preview, Choice(s, warp, resizeToFinal), s, rs);
    seq(|img|, p requires 0 <= p < |img| => RgbOf(img[p]))
  }

  /** The preview comes out the size of the layers the pkl loader assembles from
      the same sample, with every channel in [0, 1] and equal to the resampled
      preview's byte over 255. */
  lemma LoadPreviewSpec(s: Sample, warp: bool, resizeToFinal: bool, rs: Resamplers)
    requires WellFormed(s) && Sizing(rs)
    ensures var c := Choice(s, warp, resizeToFinal);
      var out, img := LoadPreviewData(s, warp, resizeToFinal, rs), ResampleImage(s.preview, c, s, rs);
      && |out| == TargetSize(s, c)
      && SameSize(ResampledLayers(s, c, rs), |out|)
      && forall p :: 0 <= p < |out| ==>
           && Compositing.RgbInUnit(out[p])
           && out[p] == Compositing.Rgb(ToFloat(img[p]).r, ToFloat(img[p]).g, ToFloat(img[p]).b)
  {
    var c := Choice(s, warp, resizeToFinal);
    ResampledSpec(s, c, rs);
    var out, img := LoadPreviewData(s, warp, resizeToFinal, rs), ResampleImage(s.preview, c, s, rs);
    assert |img| == TargetSize(s, c);
    forall p | 0 <= p < |out| ensures Compositing.RgbInUnit(out[p]) {
      assert out[p] == RgbOf(img[p]);
    }
  }

  // ------------------------------------------------------------ normalisation

  /** `denormalize_img`: [-1, 1] back to the 8-bit scale. */
  function DenormalizeImg(y: real): (x: real)
    ensures -1.0 <= y <= 1.0 ==> 0.0 <= x <= 255.0
  {
    ((y + 1.0) / 2.0) * 255.0
  }

  /** `normalize_img`: [0, 1] onto [-1, 1]; denormalising the
      result gives the value on the 8-bit scale. */
  function NormalizeImg(x: real): (y: real)
    ensures 0.0 <= x <= 1.0 ==> -1.0 <= y <= 1.0
    ensures DenormalizeImg(y) == 255.0 * x
  {
    2.0 * (x - 0.5)
  }

  function NormalizeRgb(c: Compositing.Rgb): Compositing.Rgb
  {
    Compositing.Rgb(NormalizeImg(c.r), NormalizeImg(c.g), NormalizeImg(c.b))
  }

  /** `normalize_img` on a whole preview. */
  function NormalizeImage(img: seq<Compositing.Rgb>): (out: seq<Compositing.Rgb>)
    ensures |out| == |img|
    ensures forall p :: 0 <= p < |img| ==> out[p] == NormalizeRgb(img[p])
  {
    seq(|img|, p requires 0 <= p < |img| => NormalizeRgb(img[p]))
  }

  /** A loaded preview lands in [-1, 1] channel by channel. */
  lemma NormalizedPreviewRange(s: Sample, warp: bool, resizeToFinal: bool, rs: Resamplers)
    requires WellFormed(s) && Sizing(rs)
    ensures var out := NormalizeImage(LoadPreviewData(s, warp, resizeToFinal, rs));
      forall p :: 0 <= p < |out| ==>
        -1.0 <= out[p].r <= 1.0 && -1.0 <= out[p].g <= 1.0 && -1.0 <= out[p].b <= 1.0
  {
    LoadPreviewSpec(s, warp, resizeToFinal, rs);
  }

  // ------------------------------------------------------------- the pair set

  /** `os.path.join(sample, '%d.pkl' % i)`. */
  datatype PklPath = PklPath(sample: string, index: nat)

  /** One sample directory and the number of entries in it. */
  datatype SampleDir = SampleDir(name: string, count: nat)

  function DirPaths(d: SampleDir): (ps: seq<PklPath>)
    ensures |ps| == d.count && forall i :: 0 <= i < d.count ==> ps[i] == PklPath(d.name, i)
  {
    seq(d.count, i requires 0 <= i < d.count => PklPath(d.name, i))
  }

  /** `self.paths` as the constructor builds it, directory by directory. */
  function Paths(dirs: seq<SampleDir>): (ps: seq<PklPath>)
    decreases |dirs|
  {
    if dirs == [] then [] else DirPaths(dirs[0]) + Paths(dirs[1..])
  }

  /** Only the listed directories' names occur in the paths. */
  lemma {:induction false} NameAbsent(dirs: seq<SampleDir>, name: string)
    requires forall j :: 0 <= j < |dirs| ==> dirs[j].name != name
    ensures forall k :: 0 <= k < |Paths(dirs)| ==> Paths(dirs)[k].sample != name
    decreases |dirs|
  {
    if dirs != [] {
      assert forall j :: 0 <= j < |dirs[1..]| ==> dirs[1..][j] == dirs[j + 1];
      NameAbsent(dirs[1..], name);
    }
  }

  /** `os.listdir` names each directory once. */
  predicate DistinctNames(dirs: seq<SampleDir>)
  {
    forall i, j :: 0 <= i < j < |dirs| ==> dirs[i].name != dirs[j].name
  }

  /** `cnt` is the last position of the run of paths of `idx`'s sample that
      starts at `idx`. */
  predicate RunEnd(paths: seq<PklPath>, idx: nat, cnt: nat)
  {
    && idx <= cnt < |paths|
    && (forall k :: idx <= k <= cnt ==> paths[k].sample == paths[idx].sample)
    && (cnt + 1 == |paths| || paths[cnt + 1].sample != paths[idx].sample)
  }

  /** The scan of `__getitem__`: advance while the sample name stays the same,
      then step back. */
  method LastOfGroup(paths: seq<PklPath>, idx: nat) returns (cnt: nat)
    requires idx < |paths|
    ensures RunEnd(paths, idx, cnt)
  {
    cnt := idx;
    while cnt < |paths| && paths[cnt].sample == paths[idx].sample
      invariant idx <= cnt <= |paths|
      invariant forall k :: idx <= k < cnt ==> paths[k].sample == paths[idx].sample
      invariant cnt > idx || cnt < |paths|
    {
      cnt := cnt + 1;
    }
    cnt := cnt - 1;
  }

  /** The first directory's name is not among the others'. */
  lemma FirstNameFresh(dirs: seq<SampleDir>)
    requires DistinctNames(dirs) && dirs != []
    ensures forall j :: 0 <= j < |dirs[1..]| ==> dirs[1..][j].name != dirs[0].name
    ensures DistinctNames(dirs[1..])
  {
    forall i, j | 0 <= i < j < |dirs[1..]| ensures dirs[1..][i].name != dirs[1..][j].name {
      assert dirs[1..][i] == dirs[i + 1] && dirs[1..][j] == dirs[j + 1];
    }
  }

  /** The paths of the first directory, then those of the rest, none of which
      carries the first directory's name. */
  lemma PathsSplit(dirs: seq<SampleDir>)
    requires DistinctNames(dirs) && dirs != []
    ensures var ps, d := Paths(dirs), DirPaths(dirs[0]);
      && |ps| == |d| + |Paths(dirs[1..])|
      && (forall k :: 0 <= k < |d| ==> ps[k] == PklPath(dirs[0].name, k))
      && (forall k :: |d| <= k < |ps| ==> ps[k] == Paths(dirs[1..])[k - |d|] && ps[k].sample != dirs[0].name)
  {
    FirstNameFresh(dirs);
    NameAbsent(dirs[1..], dirs[0].name);
  }

  /** A run starting in the first directory ends at its last pickle. */
  lemma RunEndInFirst(dirs: seq<SampleDir>, idx: nat, cnt: nat)
    requires DistinctNames(dirs) && RunEnd(Paths(dirs), idx, cnt)
    requires dirs != [] && idx < dirs[0].count
    ensures var ps := Paths(dirs);
      forall k :: 0 <= k < |ps| && ps[k].sample == ps[idx].sample ==> ps[k].index <= ps[cnt].index
  {
    var ps := Paths(dirs);
    PathsSplit(dirs);
    assert ps[idx].sample == dirs[0].name && ps[cnt].sample == dirs[0].name;
    assert cnt == dirs[0].count - 1;
  }

  /** A run starting after the first directory is a run of the rest. */
  lemma RunEndShift(dirs: seq<SampleDir>, idx: nat, cnt: nat)
    requires DistinctNames(dirs) && RunEnd(Paths(dirs), idx, cnt)
    requires dirs != [] && idx >= dirs[0].count
    ensures var m := dirs[0].count;
      && RunEnd(Paths(dirs[1..]), idx - m, cnt - m)
      && Paths(dirs)[idx] == Paths(dirs[1..])[idx - m] && Paths(dirs)[cnt] == Paths(dirs[1..])[cnt - m]
      && forall k :: 0 <= k < m ==> Paths(dirs)[k].sample != Paths(dirs)[idx].sample
  {
    var ps, rest, m := Paths(dirs), Paths(dirs[1..]), dirs[0].count;
    PathsSplit(dirs);
    assert rest[idx - m] == ps[idx];
    forall k | idx - m <= k <= cnt - m ensures rest[k].sample == rest[idx - m].sample {
      assert rest[k] == ps[k + m];
    }
    assert cnt + 1 < |ps| ==> rest[cnt - m + 1] == ps[cnt + 1];
  }

  /** On the constructor's path list the run ends at the pickle with the
      largest number of the same sample, the finished document. */
  lemma {:induction false} RunEndIsLast(dirs: seq<SampleDir>, idx: nat, cnt: nat)
    requires DistinctNames(dirs) && RunEnd(Paths(dirs), idx, cnt)
    ensures var ps := Paths(dirs);
      forall k :: 0 <= k < |ps| && ps[k].sample == ps[idx].sample ==> ps[k].index <= ps[cnt].index
    decreases |dirs|
  {
    var m := dirs[0].count;
    if idx < m {
      RunEndInFirst(dirs, idx, cnt);
    } else {
      RunEndShift(dirs, idx, cnt);
      FirstNameFresh(dirs);
      RunEndIsLast(dirs[1..], idx - m, cnt - m);
      var ps, rest := Paths(dirs), Paths(dirs[1..]);
      PathsSplit(dirs);
      forall k | m <= k < |ps| && ps[k].sample == ps[idx].sample ensures ps[k].index <= ps[cnt].index {
        assert ps[k] == rest[k - m];
      }
    }
  }

  /** `__getitem__` with no augmentation: the preview at `idx` and the preview
      at the end of its run, both normalised. */
  method GetItem(paths: seq<PklPath>, idx: nat, load: PklPath -> Sample, warp: bool, resizeToFinal: bool,
                 rs: Resamplers)
    returns (cur: seq<Compositing.Rgb>, last: seq<Compositing.Rgb>, ghost cnt: nat)
    requires idx < |paths|
    ensures RunEnd(paths, idx, cnt)
    ensures cur == NormalizeImage(LoadPreviewData(load(paths[idx]), warp, resizeToFinal, rs))
    ensures last == NormalizeImage(LoadPreviewData(load(paths[cnt]), warp, resizeToFinal, rs))
  {
    var c := LastOfGroup(paths, idx);
    cnt := c;
    var previewCur := LoadPreviewData(load(paths[idx]), warp, resizeToFinal, rs);
    var previewLast := LoadPreviewData(load(paths[c]), warp, resizeToFinal, rs);
    cur := NormalizeImage(previewCur);
    last := NormalizeImage(previewLast);
  }
}
