/** Packing a layer stack into a fixed number of slots with one-hot blend rows
    (the tail of `PSDPickleDataset.load_pkl_data` and `BLEND_DICT`). */
module Packing {
  import opened Pixels

  /** The keys of `BLEND_DICT`: a blend mode, or the padding marker. */
  datatype Tag = ModeTag(mode: BlendMode) | PaddingTag

  /** `len(BLEND_DICT)`, the width of a one-hot row. */
  const Columns: nat := 5
  const NormalColumn: nat := 0
  const PaddingColumn: nat := 4

  /** `BLEND_DICT[t]`; None where the lookup raises KeyError. */
  function BlendIndex(t: Tag): (c: Option<nat>)
    ensures c.Some? ==> c.value < Columns
    ensures c.None? <==> t.ModeTag? && t.mode.OtherMode?
    ensures c == Some(PaddingColumn) <==> t == PaddingTag
    ensures c == Some(NormalColumn) <==> t == ModeTag(Normal)
  {
    match t
    case PaddingTag => Some(4)
    case ModeTag(m) =>
      match m
      case Normal => Some(0)
      case Multiply => Some(1)
      case LinearDodge => Some(2)
      case Screen => Some(3)
      case OtherMode(_) => None
  }

  /** Distinct keys have distinct columns. */
  lemma BlendIndexInjective(s: Tag, t: Tag)
    requires BlendIndex(s).Some? && BlendIndex(s) == BlendIndex(t)
    ensures s == t
  {
  }

  /** Row `c` of `np.identity(Columns)`. */
  function IdentityRow(c: nat): seq<real>
  {
    seq(Columns, j => if j == c then 1.0 else 0.0)
  }

  /** The one-hot row of a key, after the fix-up that also sets the NORMAL
      column of every row whose PADDING column is set. */
  function OneHot(t: Tag): seq<real>
    requires BlendIndex(t).Some?
  {
    var h := IdentityRow(BlendIndex(t).value);
    if h[PaddingColumn] == 1.0 then h[NormalColumn := 1.0] else h
  }

  /** A real row has a single 1, at the key's column; a padding row has a 1 in
      the PADDING and the NORMAL column and 0 elsewhere. Either way exactly one
      of the first four columns, which the compositor reads, is 1. */
  lemma OneHotSpec(t: Tag)
    requires BlendIndex(t).Some?
    ensures |OneHot(t)| == Columns
    ensures t.ModeTag? ==> forall j :: 0 <= j < Columns ==>
      OneHot(t)[j] == (if j == BlendIndex(t).value then 1.0 else 0.0)
    ensures t == PaddingTag ==> forall j :: 0 <= j < Columns ==>
      OneHot(t)[j] == (if j == NormalColumn || j == PaddingColumn then 1.0 else 0.0)
    ensures OneHot(t)[0] + OneHot(t)[1] + OneHot(t)[2] + OneHot(t)[3] == 1.0
  {
  }

  /** `ys`/`ms` are taken from `xs`/`modes` at the same increasing positions. */
  ghost predicate PairedSubsequence<T, U>(ys: seq<T>, ms: seq<U>, xs: seq<T>, modes: seq<U>)
  {
    exists idx :: Embeds(idx, ys, xs) && Embeds(idx, ms, modes)
  }

  /** The loop deleting a random entry from both lists until at most
      `maxLayers` remain; the random index is a nondeterministic choice. */
  method RandomDrop<T, U>(xs: seq<T>, modes: seq<U>, maxLayers: nat) returns (ys: seq<T>, ms: seq<U>)
    requires |xs| == |modes|
    ensures |ys| == |ms| == if |xs| <= maxLayers then |xs| else maxLayers
    ensures |xs| <= maxLayers ==> ys == xs && ms == modes
    ensures PairedSubsequence(ys, ms, xs, modes)
  {
    ys, ms := xs, modes;
    ghost var idx: seq<nat> := seq(|xs|, i => i);
    while |ys| > maxLayers
      invariant |ys| == |ms|
      invariant |xs| <= maxLayers ==> ys == xs && ms == modes
      invariant |xs| > maxLayers ==> |ys| >= maxLayers
      invariant Embeds(idx, ys, xs) && Embeds(idx, ms, modes)
      decreases |ys|
    {
      var k :| 0 <= k < |ys|;
      DeleteEmbeds(idx, ys, xs, k);
      DeleteEmbeds(idx, ms, modes, k);
      ys := ys[..k] + ys[k + 1..];
      ms := ms[..k] + ms[k + 1..];
      idx := idx[..k] + idx[k + 1..];
    }
  }

  /** Deleting one entry of a subsequence, and the matching position. */
  lemma DeleteEmbeds<T>(idx: seq<nat>, sub: seq<T>, sup: seq<T>, k: nat)
    requires Embeds(idx, sub, sup) && k < |sub|
    ensures Embeds(idx[..k] + idx[k + 1..], sub[..k] + sub[k + 1..], sup)
  {
    var idx', sub' := idx[..k] + idx[k + 1..], sub[..k] + sub[k + 1..];
    forall j | 0 <= j < |idx'| ensures idx'[j] < |sup| && sub'[j] == sup[idx'[j]] {
      if j < k { assert idx'[j] == idx[j] && sub'[j] == sub[j]; }
      else { assert idx'[j] == idx[j + 1] && sub'[j] == sub[j + 1]; }
    }
    forall i, j | 0 <= i < j < |idx'| ensures idx'[i] < idx'[j] {
      var i0 := if i < k then i else i + 1;
      var j0 := if j < k then j else j + 1;
      assert idx'[i] == idx[i0] && idx'[j] == idx[j0];
    }
  }

  /** The first mode that has no `BLEND_DICT` column. */
  function FirstUnknown(ms: seq<BlendMode>): (r: Option<BlendMode>)
    ensures r.None? <==> forall k :: 0 <= k < |ms| ==> !ms[k].OtherMode?
    ensures r.Some? ==> exists k :: (0 <= k < |ms| && ms[k] == r.value && ms[k].OtherMode?
      && forall j :: 0 <= j < k ==> !ms[j].OtherMode?)
  {
    if ms == [] then None
    else if ms[0].OtherMode? then Some(ms[0])
    else
      var r := FirstUnknown(ms[1..]);
      assert forall k :: 0 < k < |ms| ==> ms[k] == ms[1..][k - 1];
      r
  }

  /** The packed sample: the stacked images and their one-hot blend rows. */
  datatype Packed = Packed(images: seq<seq<Px>>, rows: seq<seq<real>>)

  /** The key of each slot after padding `pad` slots in front. */
  function Tags(modes: seq<BlendMode>, pad: nat): (tags: seq<Tag>)
    ensures |tags| == pad + |modes|
  {
    seq(pad, _ => PaddingTag) + seq(|modes|, k requires 0 <= k < |modes| => ModeTag(modes[k]))
  }

  /** `np.stack`, the `BLEND_DICT` lookups, the prepended padding and the
      one-hot rows. */
  function Pack(images: seq<seq<Px>>, modes: seq<BlendMode>, maxLayers: nat, ghost n: nat): Result<Packed>
    requires |images| == |modes| && Uniform(images, n)
  {
    if images == [] then Err(EmptyLayerList)
    else
      match FirstUnknown(modes)
      case Some(m) => Err(UnknownBlendMode(m))
      case None =>
        var pad := if |images| < maxLayers then maxLayers - |images| else 0;
        var tags := Tags(modes, pad);
        assert forall k :: 0 <= k < |tags| ==> BlendIndex(tags[k]).Some? by {
          forall k | 0 <= k < |tags| ensures BlendIndex(tags[k]).Some? {
            if k >= pad { assert tags[k] == ModeTag(modes[k - pad]); }
          }
        }
        Ok(Packed(seq(pad, _ => Zeros(|images[0]|)) + images,
                  seq(|tags|, k requires 0 <= k < |tags| => OneHot(tags[k]))))
  }

  /** An empty stack fails at `np.stack`; otherwise an unknown mode fails the
      lookup, naming the first such mode. */
  lemma PackErrors(images: seq<seq<Px>>, modes: seq<BlendMode>, maxLayers: nat, n: nat)
    requires |images| == |modes| && Uniform(images, n)
    ensures images == [] ==> Pack(images, modes, maxLayers, n) == Err(EmptyLayerList)
    ensures images != [] ==>
      (Pack(images, modes, maxLayers, n).Err? <==> exists k :: 0 <= k < |modes| && modes[k].OtherMode?)
    ensures images != [] && Pack(images, modes, maxLayers, n).Err? ==>
      Pack(images, modes, maxLayers, n) == Err(UnknownBlendMode(FirstUnknown(modes).value))
  {
  }

  /** A successful pack holds `max(n, maxLayers)` images and rows: all-zero
      padding slots with padding rows first, then the given images in order with
      one-hot rows of their own modes. */
  lemma PackSpec(images: seq<seq<Px>>, modes: seq<BlendMode>, maxLayers: nat, n: nat)
    requires |images| == |modes| && Uniform(images, n)
    requires Pack(images, modes, maxLayers, n).Ok?
    ensures var p := Pack(images, modes, maxLayers, n).value;
      var pad := |p.images| - |images|;
      && |p.images| == |p.rows| == (if |images| < maxLayers then maxLayers else |images|)
      && Uniform(p.images, n)
      && (forall j :: 0 <= j < pad ==> p.images[j] == Zeros(n) && p.rows[j] == OneHot(PaddingTag))
      && (forall k :: 0 <= k < |images| ==>
            p.images[pad + k] == images[k] && p.rows[pad + k] == OneHot(ModeTag(modes[k])))
  {
    var p := Pack(images, modes, maxLayers, n).value;
    var pad := if |images| < maxLayers then maxLayers - |images| else 0;
    var tags := Tags(modes, pad);
    assert |images[0]| == n;
    var zs := seq(pad, _ => Zeros(n));
    assert p.images == zs + images;
    assert |p.rows| == |tags| && forall j :: 0 <= j < |tags| ==> p.rows[j] == OneHot(tags[j]);
    forall j | 0 <= j < pad ensures p.images[j] == Zeros(n) && p.rows[j] == OneHot(PaddingTag) {
      assert p.images[j] == zs[j] && tags[j] == PaddingTag;
    }
    forall k | 0 <= k < |images|
      ensures p.images[pad + k] == images[k] && p.rows[pad + k] == OneHot(ModeTag(modes[k]))
    {
      assert tags[pad + k] == ModeTag(modes[k]);
    }
    forall j | 0 <= j < |p.images| ensures |p.images[j]| == n {
      if j >= pad { assert p.images[j] == images[j - pad]; }
    }
  }
}
