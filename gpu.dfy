/**
 * The host graphics framework as the jump-flood code sees it: colour buffers
 * that are allocated, filled, copied, written by filter passes and destroyed.
 * A buffer is an opaque id; what it holds is a symbolic term that records which
 * passes produced it, so the shaders themselves stay uninterpreted.
 */
module Gpu {

  type BufferId = nat

  /** Width and height of a colour buffer, in pixels. */
  datatype Dims = Dims(width: nat, height: nat)

  /** The only fill colour the core uses (`ColorRGBa.BLACK`). */
  datatype Color = Black

  /**
   * The filters (fragment-shader passes) with the parameters the core sets on them.
   * Shader parameters that are doubles in the source are kept as reals and only recorded.
   */
  datatype Filter =
    | Passthrough
    | EncodePoints
    | JumpFloodStep(step: nat)
    | ContourPoints
    | Threshold(threshold: real)
    | PixelDistance(originalSize: Dims, distanceScale: real, signedBit: bool)
    | PixelDirection(originalSize: Dims)

  /** What a buffer holds, as the history of the operations that produced it. */
  datatype Content =
    | Uninitialised
    | Solid(color: Color)
    | Overlay(top: Content, region: Dims, under: Content)   // `top` copied into the top-left `region`
    | Cropped(whole: Content, region: Dims)                 // the top-left `region` of a larger buffer
    | Applied(filter: Filter, inputs: seq<Content>)

  /** One operation issued to the framework, with the buffers it reads and writes. */
  datatype Op =
    | Allocate(id: BufferId, dims: Dims)
    | Fill(target: BufferId, color: Color)
    | Copy(source: BufferId, target: BufferId)
    | Apply(filter: Filter, sources: seq<BufferId>, target: BufferId)
    | Release(id: BufferId)

  /** What lies outside a top-left `region` of a buffer holding `c`. */
  function Beneath(c: Content, region: Dims): Content
  {
    if c.Overlay? && c.region == region then c.under else c
  }

  /** A `src`-sized copy reaches every pixel of a `dst`-sized target. */
  predicate Covers(src: Dims, dst: Dims)
  {
    src.width >= dst.width && src.height >= dst.height
  }

  /**
   * The content of a `dst`-sized buffer after a `src`-sized buffer
   * holding `c` is copied onto it (it held `prior`): a copy that covers the
   * target replaces everything (cropped when the source is larger); a smaller
   * copy covers the top-left `src` region and leaves the rest of `prior`.
   */
  function CopyOnto(c: Content, src: Dims, dst: Dims, prior: Content): (r: Content)
    ensures src == dst ==> r == c
    ensures Covers(src, dst) && src != dst ==> r == Cropped(c, dst)
    ensures !Covers(src, dst) ==> r.Overlay? && r.top == c && Beneath(r, src) == Beneath(prior, src)
  {
    if src == dst then c
    else if Covers(src, dst) then Cropped(c, dst)
    else Overlay(c, src, Beneath(prior, src))
  }

  /** A copy that covers its target does not depend on what the target held. */
  lemma CoveringCopyDropsPrior(c: Content, src: Dims, dst: Dims, prior: Content, other: Content)
    requires Covers(src, dst)
    ensures CopyOnto(c, src, dst, prior) == CopyOnto(c, src, dst, other)
  {
  }

  /**
   * A second copy of the same size wipes out the first: what the target held
   * before the first copy is all that can show through either.
   */
  lemma {:induction false} CopyOverwritesCopy(first: Content, second: Content, src: Dims, dst: Dims, prior: Content)
    ensures CopyOnto(second, src, dst, CopyOnto(first, src, dst, prior)) == CopyOnto(second, src, dst, prior)
  {
    if !Covers(src, dst) {
      assert Beneath(CopyOnto(first, src, dst, prior), src) == Beneath(prior, src);
    }
  }

  /** The contents of the buffers `ids`, in order. */
  function Gather(content: map<BufferId, Content>, ids: seq<BufferId>): (r: seq<Content>)
    requires forall k :: 0 <= k < |ids| ==> ids[k] in content
    ensures |r| == |ids|
    ensures forall k :: 0 <= k < |ids| ==> r[k] == content[ids[k]]
  {
    if ids == [] then [] else [content[ids[0]]] + Gather(content, ids[1..])
  }

  /**
   * The graphics device: every buffer ever allocated with its size and content,
   * the buffers not yet destroyed, and the operations issued so far.
   */
  class Device {
    var dims: map<BufferId, Dims>
    var content: map<BufferId, Content>
    var live: set<BufferId>
    var trace: seq<Op>
    var nextId: nat

    ghost predicate Valid()
      reads this
    {
      content.Keys == dims.Keys &&
      live <= dims.Keys &&
      forall id :: id in dims ==> id < nextId
    }

    constructor ()
      ensures Valid()
      ensures dims == map[] && content == map[] && live == {} && trace == []
    {
      dims, content, live, trace, nextId := map[], map[], {}, [], 0;
    }

    /** `colorBuffer(width, height)`: a new, never used buffer. */
    method NewColorBuffer(d: Dims) returns (id: BufferId)
      requires Valid()
      modifies this
      ensures Valid()
      ensures id !in old(dims) && id == old(nextId) && nextId == old(nextId) + 1
      ensures dims == old(dims)[id := d] && content == old(content)[id := Uninitialised]
      ensures live == old(live) + {id}
      ensures trace == old(trace) + [Allocate(id, d)]
    {
      id := nextId;
      nextId := nextId + 1;
      dims := dims[id := d];
      content := content[id := Uninitialised];
      live := live + {id};
      trace := trace + [Allocate(id, d)];
    }

    /** `buffer.fill(color)`. */
    method FillWith(target: BufferId, color: Color)
      requires Valid() && target in live
      modifies this
      ensures Valid()
      ensures dims == old(dims) && live == old(live) && nextId == old(nextId)
      ensures content == old(content)[target := Solid(color)]
      ensures trace == old(trace) + [Fill(target, color)]
    {
      content := content[target := Solid(color)];
      trace := trace + [Fill(target, color)];
    }

    /** `source.copyTo(target)`. */
    method CopyTo(source: BufferId, target: BufferId)
      requires Valid() && source in live && target in live
      modifies this
      ensures Valid()
      ensures dims == old(dims) && live == old(live) && nextId == old(nextId)
      ensures content == old(content)[target :=
        CopyOnto(old(content[source]), dims[source], dims[target], old(content[target]))]
      ensures trace == old(trace) + [Copy(source, target)]
    {
      content := content[target := CopyOnto(content[source], dims[source], dims[target], content[target])];
      trace := trace + [Copy(source, target)];
    }

    /** `filter.apply(sources, target)`: one shader pass. */
    method ApplyFilter(filter: Filter, sources: seq<BufferId>, target: BufferId)
      requires Valid() && target in live
      requires forall k :: 0 <= k < |sources| ==> sources[k] in live
      modifies this
      ensures Valid()
      ensures dims == old(dims) && live == old(live) && nextId == old(nextId)
      ensures content == old(content)[target := Applied(filter, Gather(old(content), sources))]
      ensures trace == old(trace) + [Apply(filter, sources, target)]
    {
      content := content[target := Applied(filter, Gather(content, sources))];
      trace := trace + [Apply(filter, sources, target)];
    }

    /** `buffer.destroy()`. */
    method Destroy(id: BufferId)
      requires Valid() && id in live
      modifies this
      ensures Valid()
      ensures dims == old(dims) && content == old(content) && nextId == old(nextId)
      ensures live == old(live) - {id}
      ensures trace == old(trace) + [Release(id)]
    {
      live := live - {id};
      trace := trace + [Release(id)];
    }
  }
}
