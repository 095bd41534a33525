/** `LinearComposite`: the layers of one packed sample blended slot by slot over
    a uniform background, with exact reals for the float tensors. */
module Compositing {
  import opened Pixels
  import Packing

  datatype Rgb = Rgb(r: real, g: real, b: real)

  predicate RgbInUnit(c: Rgb)
  {
    InUnit(c.r) && InUnit(c.g) && InUnit(c.b)
  }

  /** `clamp(0.0, 1.0)`. */
  function Clamp01(x: real): (y: real)
    ensures InUnit(y)
    ensures InUnit(x) ==> y == x
  {
    if x < 0.0 then 0.0 else if x > 1.0 then 1.0 else x
  }

  /** Entry `c` of `blendings` for one channel: normal, multiply, linear dodge
      and screen of the source channel `src` with alpha `alpha` over `base`. */
  function Blending(c: nat, base: real, src: real, alpha: real): real
    requires c < 4
  {
    var srcAlpha := src * alpha;
    var shadedBase := (1.0 - alpha) * base;
    if c == 0 then srcAlpha + shadedBase
    else if c == 1 then srcAlpha * base + shadedBase
    else if c == 2 then Clamp01(srcAlpha + base)
    else 1.0 - (1.0 - base) * (1.0 - srcAlpha)
  }

  /** The sum over the first four columns of a blend row (the PADDING column
      and any further ones are not read). */
  function BlendChannel(base: real, src: real, alpha: real, w: seq<real>): real
    requires |w| >= 4
  {
    w[0] * Blending(0, base, src, alpha) + w[1] * Blending(1, base, src, alpha)
      + w[2] * Blending(2, base, src, alpha) + w[3] * Blending(3, base, src, alpha)
  }

  function BlendPixel(base: Rgb, q: Px, w: seq<real>): Rgb
    requires |w| >= 4
  {
    Rgb(BlendChannel(base.r, q.r, q.a, w), BlendChannel(base.g, q.g, q.a, w), BlendChannel(base.b, q.b, q.a, w))
  }

  /** One iteration of the slot loop: every pixel of `ret` blended with the
      slot's pixel. */
  function BlendLayer(ret: seq<Rgb>, img: seq<Px>, w: seq<real>): (out: seq<Rgb>)
    requires |img| == |ret| && |w| >= 4
    ensures |out| == |ret|
    ensures forall p :: 0 <= p < |ret| ==> out[p] == BlendPixel(ret[p], img[p], w)
  {
    seq(|ret|, p requires 0 <= p < |ret| => BlendPixel(ret[p], img[p], w))
  }

  /** A stack the compositor accepts: `n` pixels per image, rows of at least
      four columns. */
  predicate Stack(layers: seq<seq<Px>>, rows: seq<seq<real>>, n: nat)
  {
    && |layers| == |rows|
    && (forall k :: 0 <= k < |layers| ==> |layers[k]| == n)
    && (forall k :: 0 <= k < |rows| ==> |rows[k]| >= 4)
  }

  lemma StackPrefix(layers: seq<seq<Px>>, rows: seq<seq<real>>, n: nat, m: nat)
    requires Stack(layers, rows, n) && m <= |layers|
    ensures Stack(layers[..m], rows[..m], n)
  {
    assert forall k :: 0 <= k < m ==> layers[..m][k] == layers[k] && rows[..m][k] == rows[k];
  }

  /** The running result after blending every slot of the stack, bottom first,
      over `start`. */
  function Composite(layers: seq<seq<Px>>, rows: seq<seq<real>>, start: seq<Rgb>): (ret: seq<Rgb>)
    requires Stack(layers, rows, |start|)
    ensures |ret| == |start|
    decreases |layers|
  {
    if layers == [] then start
    else
      var m := |layers| - 1;
      StackPrefix(layers, rows, |start|, m);
      BlendLayer(Composite(layers[..m], rows[..m], start), layers[m], rows[m])
  }

  /** `torch.ones(...) * background`. */
  function Background(n: nat, background: real): (bg: seq<Rgb>)
    ensures |bg| == n && forall p :: 0 <= p < n ==> bg[p] == Rgb(background, background, background)
  {
    seq(n, _ => Rgb(background, background, background))
  }

  /** The compositing loop itself; `n` is `h * w` of the tensor shape. */
  method LinearComposite(tensors: seq<seq<Px>>, blendModes: seq<seq<real>>, background: real, n: nat)
    returns (ret: seq<Rgb>)
    requires Stack(tensors, blendModes, n)
    ensures ret == Composite(tensors, blendModes, Background(n, background))
  {
    var start := Background(n, background);
    ret := start;
    for i := 0 to |tensors|
      invariant Stack(tensors[..i], blendModes[..i], n)
      invariant ret == Composite(tensors[..i], blendModes[..i], start)
    {
      StackPrefix(tensors, blendModes, n, i + 1);
      assert tensors[..i + 1][..i] == tensors[..i] && blendModes[..i + 1][..i] == blendModes[..i];
      ret := BlendLayer(ret, tensors[i], blendModes[i]);
    }
    assert tensors[..|tensors|] == tensors && blendModes[..|blendModes|] == blendModes;
  }

  /** The same computation for a single pixel: a fold of the slot's pixels at
      that position. */
  function FoldPixel(column: seq<Px>, rows: seq<seq<real>>, start: Rgb): Rgb
    requires |column| == |rows| && forall k :: 0 <= k < |rows| ==> |rows[k]| >= 4
    decreases |column|
  {
    if column == [] then start
    else
      var m := |column| - 1;
      BlendPixel(FoldPixel(column[..m], rows[..m], start), column[m], rows[m])
  }

  /** The pixels of every slot at position `p`. */
  function Column(layers: seq<seq<Px>>, p: nat): (col: seq<Px>)
    requires forall k :: 0 <= k < |layers| ==> p < |layers[k]|
    ensures |col| == |layers| && forall k :: 0 <= k < |layers| ==> col[k] == layers[k][p]
  {
    seq(|layers|, k requires 0 <= k < |layers| => layers[k][p])
  }

  /** Pixels do not interact: each output pixel is the fold of its own column. */
  lemma {:induction false} CompositeAt(layers: seq<seq<Px>>, rows: seq<seq<real>>, start: seq<Rgb>, p: nat)
    requires Stack(layers, rows, |start|) && p < |start|
    ensures Composite(layers, rows, start)[p] == FoldPixel(Column(layers, p), rows, start[p])
    decreases |layers|
  {
    if layers != [] {
      var m := |layers| - 1;
      StackPrefix(layers, rows, |start|, m);
      CompositeAt(layers[..m], rows[..m], start, p);
      assert Column(layers, p)[..m] == Column(layers[..m], p);
    }
  }

  lemma StackAppend(a: seq<seq<Px>>, ra: seq<seq<real>>, b: seq<seq<Px>>, rb: seq<seq<real>>, n: nat)
    requires Stack(a, ra, n) && Stack(b, rb, n)
    ensures Stack(a + b, ra + rb, n)
  {
    forall k | 0 <= k < |a + b| ensures |(a + b)[k]| == n && |(ra + rb)[k]| >= 4 {
      if k < |a| { assert (a + b)[k] == a[k] && (ra + rb)[k] == ra[k]; }
      else { assert (a + b)[k] == b[k - |a|] && (ra + rb)[k] == rb[k - |a|]; }
    }
  }

  /** Blending a stack in two parts is blending the top part over the result of
      the bottom part. */
  lemma {:induction false} CompositeAppend(a: seq<seq<Px>>, ra: seq<seq<real>>, b: seq<seq<Px>>, rb: seq<seq<real>>, start: seq<Rgb>)
    requires Stack(a, ra, |start|) && Stack(b, rb, |start|)
    ensures Stack(a + b, ra + rb, |start|)
    ensures Composite(a + b, ra + rb, start) == Composite(b, rb, Composite(a, ra, start))
    decreases |b|
  {
    StackAppend(a, ra, b, rb, |start|);
    if b == [] {
      assert a + b == a && ra + rb == ra;
    } else {
      var m := |b| - 1;
      StackPrefix(b, rb, |start|, m);
      CompositeAppend(a, ra, b[..m], rb[..m], start);
      var ab, rab := a + b, ra + rb;
      assert ab[..|ab| - 1] == a + b[..m];
      assert rab[..|rab| - 1] == ra + rb[..m];
      assert ab[|ab| - 1] == b[m] && rab[|rab| - 1] == rb[m];
    }
  }

  /** Linear dodge aside, every blending of a transparent source gives the base back. */
  lemma TransparentBlendings(x: real, s: real)
    ensures Blending(0, x, s, 0.0) == x && Blending(1, x, s, 0.0) == x && Blending(3, x, s, 0.0) == x
    ensures Blending(2, x, s, 0.0) == Clamp01(x)
  {
    assert s * 0.0 == 0.0;
    assert (1.0 - 0.0) * x == x;
    assert 0.0 * x == 0.0;
    assert (1.0 - x) * (1.0 - 0.0) == 1.0 - x;
  }

  lemma SumFactor(w0: real, w1: real, w2: real, w3: real, x: real)
    ensures w0 * x + w1 * x + w2 * x + w3 * x == (w0 + w1 + w2 + w3) * x
  {
  }

  lemma ChannelNoOp(x: real, s: real, w: seq<real>)
    requires |w| >= 4 && w[0] + w[1] + w[2] + w[3] == 1.0
    requires w[2] == 0.0 || InUnit(x)
    ensures BlendChannel(x, s, 0.0, w) == x
  {
    TransparentBlendings(x, s);
    assert w[2] * Clamp01(x) == w[2] * x;
    SumFactor(w[0], w[1], w[2], w[3], x);
  }

  /** A transparent slot whose row selects NORMAL leaves the result unchanged;
      so does one whose row sums to 1 over the first four columns without
      LINEAR_DODGE, or with it over an in-range result. */
  lemma TransparentNoOp(base: Rgb, q: Px, w: seq<real>)
    requires |w| >= 4 && q.a == 0.0
    requires w[0] + w[1] + w[2] + w[3] == 1.0
    requires w[2] == 0.0 || RgbInUnit(base)
    ensures BlendPixel(base, q, w) == base
  {
    ChannelNoOp(base.r, q.r, w);
    ChannelNoOp(base.g, q.g, w);
    ChannelNoOp(base.b, q.b, w);
  }

  /** An opaque slot whose row selects only NORMAL replaces the result by its RGB. */
  lemma OpaqueNormal(base: Rgb, q: Px, w: seq<real>)
    requires |w| >= 4 && q.a == 1.0
    requires w[0] == 1.0 && w[1] == 0.0 && w[2] == 0.0 && w[3] == 0.0
    ensures BlendPixel(base, q, w) == Rgb(q.r, q.g, q.b)
  {
  }

  /** The zero images and padding rows that packing prepends. */
  predicate Padding(layers: seq<seq<Px>>, rows: seq<seq<real>>)
  {
    && |layers| == |rows|
    && (forall k :: 0 <= k < |layers| ==> forall p :: 0 <= p < |layers[k]| ==> layers[k][p] == ClearPx)
    && (forall k :: 0 <= k < |rows| ==> rows[k] == Packing.OneHot(Packing.PaddingTag))
  }

  /** A stack of padding slots leaves any start unchanged, so an all-padding
      stack composites to the background. */
  lemma {:induction false} PaddingNoOp(layers: seq<seq<Px>>, rows: seq<seq<real>>, start: seq<Rgb>)
    requires Stack(layers, rows, |start|) && Padding(layers, rows)
    ensures Composite(layers, rows, start) == start
    decreases |layers|
  {
    if layers != [] {
      var m := |layers| - 1;
      StackPrefix(layers, rows, |start|, m);
      assert Padding(layers[..m], rows[..m]) by {
        assert forall k :: 0 <= k < m ==> layers[..m][k] == layers[k] && rows[..m][k] == rows[k];
      }
      PaddingNoOp(layers[..m], rows[..m], start);
      Packing.OneHotSpec(Packing.PaddingTag);
      var w := rows[m];
      forall p | 0 <= p < |start| ensures BlendPixel(start[p], layers[m][p], w) == start[p] {
        TransparentNoOp(start[p], layers[m][p], w);
      }
    }
  }
}
