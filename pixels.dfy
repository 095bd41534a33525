/** Pixel and layer-stack vocabulary shared by every stage of the pipeline. */
module Pixels {

  /** One 8-bit channel value, as PIL stores it. */
  type Byte = x: int | 0 <= x < 256

  /** An RGBA pixel of a PIL image. */
  datatype Rgba8 = Rgba8(r: Byte, g: Byte, b: Byte, a: Byte)

  const Clear8: Rgba8 := Rgba8(0, 0, 0, 0)

  /** An RGBA pixel of a normalised float image; channel values are exact reals. */
  datatype Px = Px(r: real, g: real, b: real, a: real)

  const ClearPx: Px := Px(0.0, 0.0, 0.0, 0.0)

  /** The blend modes a layer can carry; every mode of the document format other
      than the four the compositor knows is an OtherMode. */
  datatype BlendMode = Normal | Multiply | LinearDodge | Screen | OtherMode(code: nat)

  datatype Option<T> = None | Some(value: T)

  /** The ways the loader fails: `np.stack` (or an index `[0]`) on an empty
      layer list, and a `BLEND_DICT` lookup of a mode it has no column for. */
  datatype Error = EmptyLayerList | UnknownBlendMode(mode: BlendMode)

  datatype Result<T> = Ok(value: T) | Err(error: Error)

  /** PIL's `getbbox()` of an RGBA image is None exactly when every alpha is 0. */
  predicate NoAlphaBox(img: seq<Rgba8>)
  {
    forall i :: 0 <= i < |img| ==> img[i].a == 0
  }

  /** An all-zero float image of `n` pixels (`np.zeros`). */
  function Zeros(n: nat): (z: seq<Px>)
    ensures |z| == n && forall p :: 0 <= p < n ==> z[p] == ClearPx
  {
    seq(n, _ => ClearPx)
  }

  predicate InUnit(x: real)
  {
    0.0 <= x <= 1.0
  }

  /** Every image has `n` pixels (`np.stack` needs one shape). */
  predicate Uniform(images: seq<seq<Px>>, n: nat)
  {
    forall k :: 0 <= k < |images| ==> |images[k]| == n
  }

  /** A float layer and its blend mode: one `(img, blend_mode)` pair of `layer_tensors`. */
  datatype Tensor = Tensor(img: seq<Px>, mode: BlendMode)

  /** The same pair while its image is a mutable numpy buffer. */
  datatype Slot = Slot(img: array<Px>, mode: BlendMode)

  function Buffers(slots: seq<Slot>): set<array<Px>>
  {
    set k | 0 <= k < |slots| :: slots[k].img
  }

  /** The values currently held by a list of buffers. */
  ghost function Contents(slots: seq<Slot>): (ts: seq<Tensor>)
    reads Buffers(slots)
    ensures |ts| == |slots|
    ensures forall k :: 0 <= k < |slots| ==> ts[k] == Tensor(slots[k].img[..], slots[k].mode)
    decreases |slots|
  {
    if slots == [] then []
    else
      var n := |slots| - 1;
      assert Buffers(slots[..n]) <= Buffers(slots) by {
        forall k | 0 <= k < n ensures slots[..n][k].img in Buffers(slots) {
          assert slots[..n][k] == slots[k];
        }
      }
      Contents(slots[..n]) + [Tensor(slots[n].img[..], slots[n].mode)]
  }

  /** No two entries share a buffer. */
  predicate Distinct(slots: seq<Slot>)
  {
    forall i, j :: 0 <= i < j < |slots| ==> slots[i].img != slots[j].img
  }

  /** Every buffer holds `n` pixels. */
  predicate Sized(slots: seq<Slot>, n: nat)
  {
    forall k :: 0 <= k < |slots| ==> slots[k].img.Length == n
  }

  /** The elements of `xs` whose flag in `keep` is set, in their original order
      (a Python list comprehension with an `if`, or a loop that appends). */
  function Select<T>(xs: seq<T>, keep: seq<bool>): (r: seq<T>)
    requires |keep| == |xs|
    ensures |r| <= |xs|
    ensures forall x :: x in r ==> x in xs
    decreases |xs|
  {
    if xs == [] then []
    else
      var n := |xs| - 1;
      Select(xs[..n], keep[..n]) + (if keep[n] then [xs[n]] else [])
  }

  /** `idx` lists, in increasing order, the positions of `sup` that make up `sub`. */
  ghost predicate Embeds<T>(idx: seq<nat>, sub: seq<T>, sup: seq<T>)
  {
    && |idx| == |sub|
    && (forall j :: 0 <= j < |idx| ==> idx[j] < |sup| && sub[j] == sup[idx[j]])
    && (forall i, j :: 0 <= i < j < |idx| ==> idx[i] < idx[j])
  }

  /** `sub` is an order-preserving subsequence of `sup`. */
  ghost predicate IsSubsequence<T>(sub: seq<T>, sup: seq<T>)
  {
    exists idx :: Embeds(idx, sub, sup)
  }

  /** The positions whose flag is set, in increasing order. */
  function SelectedIndices(keep: seq<bool>): (idx: seq<nat>)
    ensures forall j :: 0 <= j < |idx| ==> idx[j] < |keep|
    decreases |keep|
  {
    if keep == [] then []
    else
      var n := |keep| - 1;
      SelectedIndices(keep[..n]) + (if keep[n] then [n] else [])
  }

  /** Selection keeps exactly the flagged elements, in order: element `i` of the
      input is in the output iff its flag is set, and the output's `j`-th element
      is the input's `idx[j]`-th for an increasing `idx`. */
  lemma SelectSpec<T>(xs: seq<T>, keep: seq<bool>)
    requires |keep| == |xs|
    ensures var idx := SelectedIndices(keep);
      && Embeds(idx, Select(xs, keep), xs)
      && forall i :: 0 <= i < |xs| ==> (keep[i] <==> i in idx)
  {
    IndicesSpec(keep);
    SelectAt(xs, keep);
  }

  /** The selected positions are increasing and are exactly the flagged ones. */
  lemma {:induction false} IndicesSpec(keep: seq<bool>)
    ensures var idx := SelectedIndices(keep);
      && (forall i, j :: 0 <= i < j < |idx| ==> idx[i] < idx[j])
      && forall i :: 0 <= i < |keep| ==> (keep[i] <==> i in idx)
    decreases |keep|
  {
    if keep != [] {
      var n := |keep| - 1;
      IndicesSpec(keep[..n]);
      var idx0 := SelectedIndices(keep[..n]);
      assert forall i :: 0 <= i < n ==> keep[..n][i] == keep[i];
      if keep[n] {
        var idx := idx0 + [n];
        assert SelectedIndices(keep) == idx;
        forall i | 0 <= i < |keep| ensures keep[i] <==> i in idx {
          if i < n { assert i in idx <==> i in idx0; }
          else { assert idx[|idx0|] == i; }
        }
      } else {
        assert SelectedIndices(keep) == idx0;
      }
    }
  }

  /** The `j`-th selected element is the element at the `j`-th selected position. */
  lemma {:induction false} SelectAt<T>(xs: seq<T>, keep: seq<bool>)
    requires |keep| == |xs|
    ensures var idx, sel := SelectedIndices(keep), Select(xs, keep);
      |sel| == |idx| && forall j :: 0 <= j < |idx| ==> sel[j] == xs[idx[j]]
    decreases |xs|
  {
    if xs != [] {
      var n := |xs| - 1;
      SelectAt(xs[..n], keep[..n]);
    }
  }

  /** A selection is an order-preserving subsequence. */
  lemma SelectIsSubsequence<T>(xs: seq<T>, keep: seq<bool>)
    requires |keep| == |xs|
    ensures IsSubsequence(Select(xs, keep), xs)
  {
    SelectSpec(xs, keep);
  }

  /** The buffers of a selection are among the buffers of the input. */
  lemma {:induction false} SelectBuffers(slots: seq<Slot>, keep: seq<bool>)
    requires |keep| == |slots|
    ensures Buffers(Select(slots, keep)) <= Buffers(slots)
  {
    var sel := Select(slots, keep);
    SelectSpec(slots, keep);
    var idx := SelectedIndices(keep);
    forall b | b in Buffers(sel) ensures b in Buffers(slots) {
      var k :| 0 <= k < |sel| && sel[k].img == b;
      assert slots[idx[k]].img == b;
    }
  }

  /** Selecting buffers and then reading them gives the same as reading them and
      then selecting the values. */
  lemma {:induction false} SelectContents(slots: seq<Slot>, keep: seq<bool>)
    requires |keep| == |slots|
    ensures Buffers(Select(slots, keep)) <= Buffers(slots)
    ensures Contents(Select(slots, keep)) == Select(Contents(slots), keep)
  {
    SelectBuffers(slots, keep);
    var sel := Select(slots, keep);
    var vals := Select(Contents(slots), keep);
    SelectSpec(slots, keep);
    SelectSpec(Contents(slots), keep);
    var idx := SelectedIndices(keep);
    assert |Contents(sel)| == |vals|;
    forall j | 0 <= j < |sel| ensures Contents(sel)[j] == vals[j] {
      assert sel[j] == slots[idx[j]];
    }
  }

  /** A selection of distinct buffers has distinct buffers. */
  lemma SelectDistinct(slots: seq<Slot>, keep: seq<bool>)
    requires |keep| == |slots| && Distinct(slots)
    ensures Distinct(Select(slots, keep))
  {
    SelectSpec(slots, keep);
    var idx := SelectedIndices(keep);
    var sel := Select(slots, keep);
    forall i, j | 0 <= i < j < |sel| ensures sel[i].img != sel[j].img {
      assert sel[i] == slots[idx[i]] && sel[j] == slots[idx[j]] && idx[i] < idx[j];
    }
  }

  /** Nothing flagged, nothing selected. */
  lemma {:induction false} SelectNone<T>(xs: seq<T>, keep: seq<bool>)
    requires |keep| == |xs| && forall i :: 0 <= i < |keep| ==> !keep[i]
    ensures Select(xs, keep) == []
    decreases |xs|
  {
    if xs != [] {
      var n := |xs| - 1;
      assert forall i :: 0 <= i < n ==> keep[..n][i] == keep[i];
      SelectNone(xs[..n], keep[..n]);
    }
  }
}
