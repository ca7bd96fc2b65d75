/**
 * The jump-flood orchestration of orx-jumpflood: the padded square size, the
 * ping-pong schedule of the jump-flood passes, buffer ownership and release,
 * the bitmap presets and the lazily allocated distance-field filter.
 * Shader passes are uninterpreted: each one only records its inputs (see Gpu).
 */
module JumpFill {
  import opened Wrappers
  import opened Gpu

  /** `IllegalArgumentException("dimensions mismatch")`. */
  datatype FloodError = DimensionsMismatch

  function Max(a: nat, b: nat): nat
  {
    if a >= b then a else b
  }

  // ---------------------------------------------------------------------------
  // Padded square size

  function Pow2(e: nat): (r: nat)
    ensures r >= 1
  {
    if e == 0 then 1 else 2 * Pow2(e - 1)
  }

  lemma {:induction false} Pow2Monotone(a: nat, b: nat)
    requires a <= b
    ensures Pow2(a) <= Pow2(b)
  {
    if a < b {
      Pow2Monotone(a, b - 1);
    }
  }

  /** `exp`: the exact ceiling of log2(d), i.e. the least `e` with `d <= 2^e`. */
  function Log2Ceil(d: nat): (e: nat)
    requires d >= 1
    ensures d <= Pow2(e)
    ensures e > 0 ==> Pow2(e - 1) < d
    decreases d
  {
    if d == 1 then 0 else 1 + Log2Ceil((d + 1) / 2)
  }

  /** `squareDim` of a flooder for a `width` x `height` input. */
  function SquareDim(width: nat, height: nat): nat
    requires width >= 1 && height >= 1
  {
    Pow2(Log2Ceil(Max(width, height)))
  }

  /**
   * `squareDim` is a power of two that covers both sides, and no smaller
   * power of two does.
   */
  lemma SquareDimIsLeastCoveringPower(width: nat, height: nat, e: nat)
    requires width >= 1 && height >= 1
    ensures width <= SquareDim(width, height) && height <= SquareDim(width, height)
    ensures width <= Pow2(e) && height <= Pow2(e) ==>
              Log2Ceil(Max(width, height)) <= e && SquareDim(width, height) <= Pow2(e)
  {
    var d := Max(width, height);
    var x := Log2Ceil(d);
    if width <= Pow2(e) && height <= Pow2(e) {
      if e < x {
        Pow2Monotone(e, x - 1);
      }
      Pow2Monotone(x, e);
    }
  }

  // ---------------------------------------------------------------------------
  // What the passes compute, symbolically

  /** The coordinate buffer after `passes` jump-flood steps starting from `encoded`. */
  function Flooded(encoded: Content, passes: nat): Content
  {
    if passes == 0 then encoded
    else Applied(JumpFloodStep(passes - 1), [Flooded(encoded, passes - 1)])
  }

  /** The `square` buffer after an input of size `d` holding `c` is copied in. */
  function PaddedInput(c: Content, d: Dims): Content
    requires d.width >= 1 && d.height >= 1
  {
    var side := SquareDim(d.width, d.height);
    if d == Dims(side, side) then c else Overlay(c, d, Solid(Black))
  }

  /** The coordinate buffer written by the encode pass. */
  function Encoded(c: Content, d: Dims): Content
    requires d.width >= 1 && d.height >= 1
  {
    Applied(EncodePoints, [PaddedInput(c, d)])
  }

  /** What `jumpFlood` leaves in `final` for an input of size `d` holding `c`. */
  function FloodOutput(c: Content, d: Dims): Content
    requires d.width >= 1 && d.height >= 1
  {
    Flooded(Encoded(c, d), Log2Ceil(Max(d.width, d.height)))
  }

  // ---------------------------------------------------------------------------
  // The operation schedule

  /** The first `n` jump-flood passes over the ping-pong pair `coords`. */
  function StepPasses(coords: seq<BufferId>, n: nat): (ops: seq<Op>)
    requires |coords| == 2
    ensures |ops| == n
  {
    if n == 0 then []
    else StepPasses(coords, n - 1) + [Apply(JumpFloodStep(n - 1), [coords[(n - 1) % 2]], coords[n % 2])]
  }

  /** Everything one successful `jumpFlood` issues, in order. */
  function FloodTrace(input: BufferId, square: BufferId, coords: seq<BufferId>, final: BufferId, exp: nat): seq<Op>
    requires |coords| == 2
  {
    [Copy(input, square), Apply(EncodePoints, [square], coords[0])]
    + StepPasses(coords, exp)
    + [Copy(coords[exp % 2], final)]
  }

  /** Everything `destroy` issues, in order. */
  function DestroyTrace(coords: seq<BufferId>, square: BufferId, final: BufferId): seq<Op>
    requires |coords| == 2
  {
    [Release(coords[0]), Release(coords[1]), Release(square), Release(final)]
  }

  /** The buffers an operation reads. */
  function Reads(op: Op): seq<BufferId>
  {
    match op
    case Copy(source, _) => [source]
    case Apply(_, sources, _) => sources
    case _ => []
  }

  /** The buffers an operation writes. */
  function Writes(op: Op): seq<BufferId>
  {
    match op
    case Fill(target, _) => [target]
    case Copy(_, target) => [target]
    case Apply(_, _, target) => [target]
    case _ => []
  }

  /** Pass `i` runs step `i`, reads slot `i % 2` and writes slot `(i + 1) % 2`. */
  lemma {:induction false} StepPassAt(coords: seq<BufferId>, n: nat, i: nat)
    requires |coords| == 2 && i < n
    ensures StepPasses(coords, n)[i] == Apply(JumpFloodStep(i), [coords[i % 2]], coords[(i + 1) % 2])
  {
    if i < n - 1 {
      StepPassAt(coords, n - 1, i);
    }
  }

  /**
   * The ping-pong schedule: exactly `exp` passes with steps 0, 1, ..., exp-1,
   * alternating between the two slots, never reading the buffer they write.
   */
  lemma PingPongSchedule(coords: seq<BufferId>, exp: nat)
    requires |coords| == 2 && coords[0] != coords[1]
    ensures |StepPasses(coords, exp)| == exp
    ensures forall i :: 0 <= i < exp ==>
              var pass := StepPasses(coords, exp)[i];
              pass.Apply? && pass.filter == JumpFloodStep(i) &&
              pass.sources == [coords[i % 2]] && pass.target == coords[(i + 1) % 2] &&
              pass.target !in pass.sources
  {
    forall i | 0 <= i < exp
      ensures var pass := StepPasses(coords, exp)[i];
              pass.Apply? && pass.filter == JumpFloodStep(i) &&
              pass.sources == [coords[i % 2]] && pass.target == coords[(i + 1) % 2] &&
              pass.target !in pass.sources
    {
      StepPassAt(coords, exp, i);
    }
  }

  /**
   * `jumpFlood` is a chain: each operation reads exactly the buffer the
   * previous one wrote, from the input copy through the encode pass and every
   * step pass to the copy into `final`.
   */
  lemma FloodTraceIsChain(input: BufferId, square: BufferId, coords: seq<BufferId>, final: BufferId, exp: nat)
    requires |coords| == 2
    ensures var t := FloodTrace(input, square, coords, final, exp);
            |t| == exp + 3 && Reads(t[0]) == [input] && Writes(t[|t| - 1]) == [final] &&
            forall k :: 0 < k < |t| ==> Reads(t[k]) == Writes(t[k - 1])
  {
    var t := FloodTrace(input, square, coords, final, exp);
    var steps := StepPasses(coords, exp);
    assert t[1] == Apply(EncodePoints, [square], coords[0]);
    assert t[|t| - 1] == Copy(coords[exp % 2], final);
    forall k | 0 < k < |t|
      ensures Reads(t[k]) == Writes(t[k - 1])
    {
      if 2 <= k < exp + 2 {
        StepPassAt(coords, exp, k - 2);
        assert t[k] == steps[k - 2];
        if k > 2 {
          StepPassAt(coords, exp, k - 3);
          assert t[k - 1] == steps[k - 3];
        }
      } else if k == exp + 2 && exp > 0 {
        StepPassAt(coords, exp, exp - 1);
        assert t[k - 1] == steps[exp - 1];
      }
    }
  }

  /** `destroy` releases each of the four owned buffers exactly once, and nothing else. */
  lemma DestroyReleasesEachOnce(coords: seq<BufferId>, square: BufferId, final: BufferId)
    requires |coords| == 2 && coords[0] != coords[1]
    requires square !in coords && final !in coords && square != final
    ensures forall b :: multiset(DestroyTrace(coords, square, final))[Release(b)] ==
                          if b in {coords[0], coords[1], square, final} then 1 else 0
  {
  }

  /**
   * The contents `m` of the device after the first `n` ping-pong passes over
   * `coords`, when slot 0 held `encoded` before them.
   */
  function AfterSteps(m: map<BufferId, Content>, coords: seq<BufferId>, encoded: Content, n: nat): map<BufferId, Content>
    requires |coords| == 2
  {
    if n == 0 then m
    else m[coords[(n + 1) % 2] := Flooded(encoded, n - 1)][coords[n % 2] := Flooded(encoded, n)]
  }

  /**
   * After `n` passes slot `n % 2` holds the output of the last pass (the
   * encoded buffer when `n == 0`), the other slot the output of the pass
   * before, and no other buffer has changed.
   */
  lemma AfterStepsSlots(m: map<BufferId, Content>, coords: seq<BufferId>, encoded: Content, n: nat)
    requires |coords| == 2 && coords[0] != coords[1] && coords[0] in m && m[coords[0]] == encoded
    ensures var after := AfterSteps(m, coords, encoded, n);
            m.Keys <= after.Keys <= m.Keys + {coords[0], coords[1]} &&
            after[coords[n % 2]] == Flooded(encoded, n) &&
            (n > 0 ==> after[coords[(n + 1) % 2]] == Flooded(encoded, n - 1)) &&
            (forall b :: b in m && b != coords[0] && b != coords[1] ==> after[b] == m[b])
  {
  }

  /** One more pass turns the state after `n` passes into the state after `n + 1`. */
  lemma AfterStepsNext(m: map<BufferId, Content>, coords: seq<BufferId>, encoded: Content, n: nat)
    requires |coords| == 2 && coords[0] != coords[1] && coords[0] in m && m[coords[0]] == encoded
    ensures var after := AfterSteps(m, coords, encoded, n);
            coords[n % 2] in after &&
            after[coords[(n + 1) % 2] := Applied(JumpFloodStep(n), [after[coords[n % 2]]])] ==
              AfterSteps(m, coords, encoded, n + 1)
  {
    var after := AfterSteps(m, coords, encoded, n);
    var next := after[coords[(n + 1) % 2] := Applied(JumpFloodStep(n), [after[coords[n % 2]]])];
    assert (n + 2) % 2 == n % 2;
    if n == 0 {
      assert m[coords[0] := encoded] == m;
    }
    assert next.Keys == AfterSteps(m, coords, encoded, n + 1).Keys;
  }

  // ---------------------------------------------------------------------------
  // JumpFlooder

  /** The allocations of a new flooder: two coordinate buffers, `final`, and `square` filled black. */
  method AllocateBuffers(device: Device, side: Dims) returns (c0: BufferId, c1: BufferId, f: BufferId, s: BufferId)
    requires device.Valid()
    modifies device
    ensures device.Valid()
    ensures c0 !in old(device.dims) && c1 !in old(device.dims) && f !in old(device.dims) && s !in old(device.dims)
    ensures c0 != c1 && c0 != f && c0 != s && c1 != f && c1 != s && f != s
    ensures device.dims == old(device.dims)[c0 := side][c1 := side][f := side][s := side]
    ensures device.content ==
              old(device.content)[c0 := Uninitialised][c1 := Uninitialised][f := Uninitialised][s := Solid(Black)]
    ensures device.live == old(device.live) + {c0, c1, f, s}
    ensures device.trace == old(device.trace) +
              [Allocate(c0, side), Allocate(c1, side), Allocate(f, side), Allocate(s, side), Fill(s, Black)]
  {
    c0 := device.NewColorBuffer(side);
    c1 := device.NewColorBuffer(side);
    f := device.NewColorBuffer(side);
    s := device.NewColorBuffer(side);
    device.FillWith(s, Black);
  }


  /**
   * A jump flooder for `width` x `height` inputs. It owns two ping-pong
   * coordinate buffers, the padded `square` scratch buffer and `final`, all of
   * side `squareDim`, allocated on construction and released by `Destroy`.
   */
  class JumpFlooder {
    const device: Device
    const width: nat
    const height: nat
    const exp: nat
    const squareDim: nat
    const coordinates: seq<BufferId>
    const final: BufferId
    const square: BufferId

    /** The sizes and the four distinct buffer ids, fixed at construction. */
    ghost predicate Shape()
    {
      width >= 1 && height >= 1 &&
      exp == Log2Ceil(Max(width, height)) && squareDim == Pow2(exp) &&
      |coordinates| == 2 &&
      coordinates[0] != coordinates[1] && square !in coordinates && final !in coordinates && square != final
    }

    /** The four buffers the flooder owns. */
    function Owned(): set<BufferId>
      requires |coordinates| == 2
    {
      {coordinates[0], coordinates[1], square, final}
    }

    ghost predicate Valid()
      reads this, device
    {
      Shape() &&
      device.Valid() &&
      Owned() <= device.live &&
      device.dims[coordinates[0]] == device.dims[coordinates[1]] == Dims(squareDim, squareDim) &&
      device.dims[square] == device.dims[final] == Dims(squareDim, squareDim) &&
      // the padding of `square` still holds the black fill
      (Dims(width, height) != Dims(squareDim, squareDim) ==>
         Beneath(device.content[square], Dims(width, height)) == Solid(Black))
    }

    constructor (device: Device, width: nat, height: nat)
      requires device.Valid() && width >= 1 && height >= 1
      modifies device
      ensures Valid()
      ensures this.device == device && this.width == width && this.height == height
      ensures squareDim == SquareDim(width, height)
      ensures forall b :: b in Owned() ==> b !in old(device.dims)
      ensures device.live == old(device.live) + Owned()
      ensures device.dims.Keys == old(device.dims).Keys + Owned()
      ensures forall b :: b in old(device.dims) ==>
                b in device.dims && device.dims[b] == old(device.dims[b]) && device.content[b] == old(device.content[b])
      ensures var side := Dims(squareDim, squareDim);
              device.trace == old(device.trace) +
                [Allocate(coordinates[0], side), Allocate(coordinates[1], side), Allocate(final, side),
                 Allocate(square, side), Fill(square, Black)]
    {
      var e := Log2Ceil(Max(width, height));
      var c0, c1, f, s := AllocateBuffers(device, Dims(Pow2(e), Pow2(e)));
      this.device := device;
      this.width := width;
      this.height := height;
      this.exp := e;
      this.squareDim := Pow2(e);
      this.coordinates := [c0, c1];
      this.final := f;
      this.square := s;
    }

    /**
     * The device contents after a successful `jumpFlood` of an input holding
     * `c`, when they were `m` before it.
     */
    ghost function AfterFlood(m: map<BufferId, Content>, c: Content): map<BufferId, Content>
      requires Shape()
    {
      var enc := Encoded(c, Dims(width, height));
      AfterSteps(m[square := PaddedInput(c, Dims(width, height))][coordinates[0] := enc], coordinates, enc, exp)
        [final := Flooded(enc, exp)]
    }

    /**
     * After a successful `jumpFlood`, `final` and slot `exp % 2` hold the
     * flood output, `square` the padded input, and buffers the flooder does
     * not own are untouched.
     */
    lemma AfterFloodFacts(m: map<BufferId, Content>, c: Content)
      requires Shape()
      ensures var after := AfterFlood(m, c);
              var d := Dims(width, height);
              m.Keys + {square, coordinates[0], final} <= after.Keys <= m.Keys + Owned() &&
              after[final] == FloodOutput(c, d) &&
              after[coordinates[exp % 2]] == FloodOutput(c, d) &&
              after[square] == PaddedInput(c, d) &&
              forall b :: b in m && b !in Owned() ==> after[b] == m[b]
    {
      var d := Dims(width, height);
      var enc := Encoded(c, d);
      AfterStepsSlots(m[square := PaddedInput(c, d)][coordinates[0] := enc], coordinates, enc, exp);
    }

    /**
     * `jumpFlood(input)`: rejects an input of the wrong size before issuing
     * anything; otherwise copies it into `square`, encodes into slot 0, runs
     * the `exp` ping-pong passes and copies slot `exp % 2` into `final`,
     * which it returns.
     */
    method JumpFlood(input: BufferId) returns (r: Result<BufferId, FloodError>)
      requires Valid() && input in device.live
      modifies device
      ensures Valid()
      ensures device.dims == old(device.dims) && device.live == old(device.live)
      ensures old(device.dims[input]) != Dims(width, height) ==>
                r == Err(DimensionsMismatch) && unchanged(device)
      ensures old(device.dims[input]) == Dims(width, height) ==>
                r == Ok(final) &&
                device.content[final] == FloodOutput(old(device.content[input]), Dims(width, height)) &&
                device.content == AfterFlood(old(device.content), old(device.content[input])) &&
                device.trace == old(device.trace) + FloodTrace(input, square, coordinates, final, exp)
    {
      if device.dims[input] != Dims(width, height) {
        return Err(DimensionsMismatch);
      }
      ghost var c := device.content[input];
      Run(input);
      assert device.trace == old(device.trace) + FloodTrace(input, square, coordinates, final, exp);
      AfterFloodFacts(old(device.content), c);
      return Ok(final);
    }

    /** The successful path of `jumpFlood`. */
    method Run(input: BufferId)
      requires Valid() && input in device.live && device.dims[input] == Dims(width, height)
      modifies device
      ensures device.Valid()
      ensures device.dims == old(device.dims) && device.live == old(device.live)
      ensures device.content == AfterFlood(old(device.content), old(device.content[input]))
      ensures device.trace == old(device.trace) + [Copy(input, square), Apply(EncodePoints, [square], coordinates[0])]
                                                + StepPasses(coordinates, exp) + [Copy(coordinates[exp % 2], final)]
    {
      ghost var enc := Encoded(device.content[input], Dims(width, height));
      EncodeInput(input);
      ghost var encodedState := device.content;
      PingPong(enc);
      AfterStepsSlots(encodedState, coordinates, enc, exp);
      device.CopyTo(coordinates[exp % 2], final);
    }

    /** The copy of `input` into `square` and the encode pass into slot 0. */
    method EncodeInput(input: BufferId)
      requires Valid() && input in device.live && device.dims[input] == Dims(width, height)
      modifies device
      ensures device.Valid()
      ensures device.dims == old(device.dims) && device.live == old(device.live)
      ensures var padded := PaddedInput(old(device.content[input]), Dims(width, height));
              device.content == old(device.content)[square := padded][coordinates[0] := Applied(EncodePoints, [padded])]
      ensures device.trace == old(device.trace) + [Copy(input, square), Apply(EncodePoints, [square], coordinates[0])]
    {
      device.CopyTo(input, square);
      assert Gather(device.content, [square]) == [device.content[square]];
      device.ApplyFilter(EncodePoints, [square], coordinates[0]);
    }

    /** The `for (i in 0 until exp)` loop of `jumpFlood`. */
    method PingPong(ghost encoded: Content)
      requires Shape() && device.Valid()
      requires coordinates[0] in device.live && coordinates[1] in device.live
      requires device.content[coordinates[0]] == encoded
      modifies device
      ensures device.Valid()
      ensures device.dims == old(device.dims) && device.live == old(device.live)
      ensures device.content == AfterSteps(old(device.content), coordinates, encoded, exp)
      ensures device.trace == old(device.trace) + StepPasses(coordinates, exp)
    {
      var i := 0;
      while i < exp
        invariant 0 <= i <= exp
        invariant device.Valid()
        invariant device.dims == old(device.dims) && device.live == old(device.live)
        invariant device.content == AfterSteps(old(device.content), coordinates, encoded, i)
        invariant device.trace == old(device.trace) + StepPasses(coordinates, i)
      {
        AfterStepsNext(old(device.content), coordinates, encoded, i);
        assert Gather(device.content, [coordinates[i % 2]]) == [device.content[coordinates[i % 2]]];
        device.ApplyFilter(JumpFloodStep(i), [coordinates[i % 2]], coordinates[(i + 1) % 2]);
        i := i + 1;
      }
    }

    /** `destroy()`: releases both coordinate buffers, `square` and `final`. */
    method Destroy()
      requires Valid()
      modifies device
      ensures device.Valid()
      ensures device.live == old(device.live) - Owned()
      ensures device.dims == old(device.dims) && device.content == old(device.content)
      ensures device.trace == old(device.trace) + DestroyTrace(coordinates, square, final)
    {
      device.Destroy(coordinates[0]);
      device.Destroy(coordinates[1]);
      device.Destroy(square);
      device.Destroy(final);
    }
  }

  // ---------------------------------------------------------------------------
  // Bitmap presets

  /** `decoder.parameters["originalSize"] = size`; only the decoders read that parameter. */
  function WithOriginalSize(f: Filter, size: Dims): Filter
  {
    match f
    case PixelDistance(_, scale, signedBit) => PixelDistance(size, scale, signedBit)
    case PixelDirection(_) => PixelDirection(size)
    case _ => f
  }

  /** The input size of the flooder `encodeDecodeBitmap` uses for a bitmap of size `bitmap`. */
  function FlooderDims(jumpFlooder: JumpFlooder?, bitmap: Dims): Dims
  {
    if jumpFlooder != null then Dims(jumpFlooder.width, jumpFlooder.height) else bitmap
  }

  /**
   * The content `encodeDecodeBitmap` leaves in its result buffer: the decoder
   * applied to the flood output of the preprocessed bitmap and to the bitmap
   * (which the preprocess pass overwrote when it is the result buffer itself).
   */
  function PipelineOutput(preprocess: Filter, decoder: Filter, bitmap: Content, inPlace: bool, d: Dims): Content
    requires d.width >= 1 && d.height >= 1
  {
    var preprocessed := Applied(preprocess, [bitmap]);
    var side := SquareDim(d.width, d.height);
    Applied(WithOriginalSize(decoder, Dims(side, side)),
            [FloodOutput(preprocessed, d), if inPlace then preprocessed else bitmap])
  }

  /**
   * What the presets demand: a live bitmap, a caller's flooder that is usable
   * and does not own the bitmap or the result, and a live result buffer.
   */
  ghost predicate PresetArguments(device: Device, bitmap: BufferId, jumpFlooder: JumpFlooder?, result: Option<BufferId>)
    reads device, jumpFlooder
  {
    device.Valid() && bitmap in device.live &&
    (jumpFlooder == null ==> device.dims[bitmap].width >= 1 && device.dims[bitmap].height >= 1) &&
    (jumpFlooder != null ==> jumpFlooder.device == device && jumpFlooder.Valid() && bitmap !in jumpFlooder.Owned()) &&
    (result.Some? ==> result.value in device.live && (jumpFlooder != null ==> result.value !in jumpFlooder.Owned()))
  }

  /**
   * `encodeDecodeBitmap`: preprocess the bitmap into the result buffer, flood
   * it, decode into the result buffer. A flooder or result buffer the caller
   * passed is used and kept; a flooder allocated here is destroyed before
   * returning, the result buffer never is. A dimensions mismatch propagates
   * before anything is destroyed.
   */
  method EncodeDecodeBitmap(device: Device, preprocess: Filter, decoder: Filter, bitmap: BufferId,
                            jumpFlooder: JumpFlooder?, result: Option<BufferId>)
    returns (r: Result<BufferId, FloodError>)
    requires PresetArguments(device, bitmap, jumpFlooder, result)
    modifies device
    ensures device.Valid()
    ensures jumpFlooder != null ==> jumpFlooder.Valid()
    ensures old(device.live) <= device.live
    ensures forall b :: b in old(device.dims) ==> b in device.dims && device.dims[b] == old(device.dims[b])
    ensures var floodDims := FlooderDims(jumpFlooder, old(device.dims[bitmap]));
            var resultDims := if result.Some? then old(device.dims[result.value]) else old(device.dims[bitmap]);
            (r.Err? <==> floodDims != resultDims) &&
            (r.Ok? ==>
               r.value in device.live &&
               (result.Some? ==> r.value == result.value && device.live == old(device.live)) &&
               (result.None? ==> r.value !in old(device.dims) && device.live == old(device.live) + {r.value}) &&
               device.content[r.value] ==
                 PipelineOutput(preprocess, decoder, old(device.content[bitmap]), result == Some(bitmap), floodDims))
    ensures r.Err? ==>
              var preprocessed := Applied(preprocess, [old(device.content[bitmap])]);
              device.live == old(device.live) + (device.dims.Keys - old(device.dims).Keys) &&
              (result.Some? ==> device.content[result.value] == preprocessed) &&
              (result.None? ==> forall b :: b in device.dims && b !in old(device.dims) ==> device.content[b] == preprocessed) &&
              forall b :: b in old(device.dims) && result != Some(b) ==>
                b in device.dims && device.dims[b] == old(device.dims[b]) && device.content[b] == old(device.content[b])
    ensures r.Ok? && result.None? ==> device.dims[r.value] == old(device.dims[bitmap])
    ensures jumpFlooder != null && result.Some? ==> device.dims.Keys == old(device.dims).Keys
    ensures r.Ok? && jumpFlooder != null ==>
              device.content[jumpFlooder.final] ==
                FloodOutput(Applied(preprocess, [old(device.content[bitmap])]), Dims(jumpFlooder.width, jumpFlooder.height))
    ensures r.Ok? ==>
            forall b :: b in old(device.dims) && result != Some(b) && (jumpFlooder != null ==> b !in jumpFlooder.Owned()) ==>
              b in device.dims && device.dims[b] == old(device.dims[b]) && device.content[b] == old(device.content[b])
  {
    var flooder, target;
    r, flooder, target := ChooseAndFlood(device, preprocess, decoder, bitmap, jumpFlooder, result);
    if r.Err? {
      return;
    }
    if jumpFlooder == null {
      flooder.Destroy();
    }
  }

  /**
   * `encodeDecodeBitmap` up to the release of a flooder it made: the buffers
   * chosen, then the preprocess, flood and decode passes.
   */
  method ChooseAndFlood(device: Device, preprocess: Filter, decoder: Filter, bitmap: BufferId,
                        jumpFlooder: JumpFlooder?, result: Option<BufferId>)
    returns (r: Result<BufferId, FloodError>, flooder: JumpFlooder, target: BufferId)
    requires PresetArguments(device, bitmap, jumpFlooder, result)
    modifies device
    ensures device.Valid() && flooder.device == device && flooder.Valid()
    ensures jumpFlooder != null ==> flooder == jumpFlooder
    ensures jumpFlooder == null ==>
              Dims(flooder.width, flooder.height) == old(device.dims[bitmap]) &&
              forall b :: b in flooder.Owned() ==> b !in old(device.dims)
    ensures result.Some? ==> target == result.value
    ensures result.None? ==>
              target !in old(device.dims) && target in device.dims && device.dims[target] == old(device.dims[bitmap])
    ensures target in device.live && target !in flooder.Owned()
    ensures forall b :: b in old(device.dims) ==> b in device.dims && device.dims[b] == old(device.dims[b])
    ensures device.live == old(device.live) + (device.dims.Keys - old(device.dims).Keys)
    ensures device.dims.Keys == old(device.dims).Keys + (if jumpFlooder == null then flooder.Owned() else {}) +
                                                        (if result.None? then {target} else {})
    ensures var floodDims := FlooderDims(jumpFlooder, old(device.dims[bitmap]));
            var resultDims := if result.Some? then old(device.dims[result.value]) else old(device.dims[bitmap]);
            (r.Err? <==> floodDims != resultDims) &&
            (r.Ok? ==>
               r.value == target &&
               device.content[target] ==
                 PipelineOutput(preprocess, decoder, old(device.content[bitmap]), result == Some(bitmap), floodDims))
    ensures r.Err? ==>
              device.content[target] == Applied(preprocess, [old(device.content[bitmap])]) &&
              forall b :: b in old(device.dims) && b != target ==> device.content[b] == old(device.content[b])
    ensures r.Ok? ==>
              device.content[flooder.final] ==
                FloodOutput(Applied(preprocess, [old(device.content[bitmap])]), Dims(flooder.width, flooder.height))
    ensures forall b :: b in old(device.dims) && b != target && b !in flooder.Owned() ==>
              device.content[b] == old(device.content[b])
  {
    flooder, target := ChooseBuffers(device, bitmap, jumpFlooder, result);
    ghost var chosenDims, chosenLive := device.dims, device.live;
    r := FloodAndDecode(device, preprocess, decoder, bitmap, flooder, target);
    assert device.dims == chosenDims && device.live == chosenLive;
  }

  /**
   * The flooder and result buffer `encodeDecodeBitmap` works with: the
   * caller's, or new ones sized to the bitmap.
   */
  method ChooseBuffers(device: Device, bitmap: BufferId, jumpFlooder: JumpFlooder?, result: Option<BufferId>)
    returns (flooder: JumpFlooder, target: BufferId)
    requires PresetArguments(device, bitmap, jumpFlooder, result)
    modifies device
    ensures device.Valid() && flooder.device == device && flooder.Valid()
    ensures jumpFlooder != null ==> flooder == jumpFlooder
    ensures jumpFlooder == null ==>
              Dims(flooder.width, flooder.height) == old(device.dims[bitmap]) &&
              forall b :: b in flooder.Owned() ==> b !in old(device.dims)
    ensures result.Some? ==> target == result.value
    ensures result.None? ==>
              target !in old(device.dims) && target in device.dims && device.dims[target] == old(device.dims[bitmap])
    ensures bitmap in device.live && target in device.live && bitmap !in flooder.Owned() && target !in flooder.Owned()
    ensures device.live == old(device.live) + (if jumpFlooder == null then flooder.Owned() else {}) +
                                              (if result.None? then {target} else {})
    ensures device.dims.Keys == old(device.dims).Keys + (device.live - old(device.live))
    ensures device.live == old(device.live) + (device.dims.Keys - old(device.dims).Keys)
    ensures device.dims.Keys == old(device.dims).Keys + (if jumpFlooder == null then flooder.Owned() else {}) +
                                                        (if result.None? then {target} else {})
    ensures jumpFlooder != null && result.Some? ==>
              device.dims == old(device.dims) && device.content == old(device.content) && device.live == old(device.live)
    ensures forall b :: b in old(device.dims) ==>
              b in device.dims && device.dims[b] == old(device.dims[b]) && device.content[b] == old(device.content[b])
  {
    if jumpFlooder != null {
      flooder := jumpFlooder;
    } else {
      flooder := new JumpFlooder(device, device.dims[bitmap].width, device.dims[bitmap].height);
    }
    if result.Some? {
      target := result.value;
    } else {
      target := device.NewColorBuffer(device.dims[bitmap]);
    }
  }

  /** The three passes of `encodeDecodeBitmap` once its flooder and result buffer are chosen. */
  method FloodAndDecode(device: Device, preprocess: Filter, decoder: Filter, bitmap: BufferId,
                        flooder: JumpFlooder, target: BufferId)
    returns (r: Result<BufferId, FloodError>)
    requires flooder.device == device && flooder.Valid()
    requires bitmap in device.live && target in device.live
    requires bitmap !in flooder.Owned() && target !in flooder.Owned()
    modifies device
    ensures flooder.Valid()
    ensures device.dims == old(device.dims) && device.live == old(device.live)
    ensures r.Err? <==> old(device.dims[target]) != Dims(flooder.width, flooder.height)
    ensures r.Ok? ==>
              r.value == target &&
              device.content[target] ==
                PipelineOutput(preprocess, decoder, old(device.content[bitmap]), target == bitmap,
                               Dims(flooder.width, flooder.height))
    ensures r.Ok? ==>
              device.content[flooder.final] ==
                FloodOutput(Applied(preprocess, [old(device.content[bitmap])]), Dims(flooder.width, flooder.height))
    ensures forall b :: b in old(device.dims) && b != target && b !in flooder.Owned() ==>
              device.content[b] == old(device.content[b])
    ensures r.Err? ==> device.content == old(device.content)[target := Applied(preprocess, [old(device.content[bitmap])])]
  {
    ghost var bitmapContent := device.content[bitmap];
    r := PreprocessAndFlood(device, preprocess, bitmap, flooder, target);
    if r.Err? {
      return;
    }
    var decode := WithOriginalSize(decoder, Dims(flooder.squareDim, flooder.squareDim));
    assert Gather(device.content, [flooder.final, bitmap]) == [device.content[flooder.final], device.content[bitmap]];
    device.ApplyFilter(decode, [flooder.final, bitmap], target);
    r := Ok(target);
  }

  /** The preprocess pass into the result buffer and the flood of that buffer. */
  method PreprocessAndFlood(device: Device, preprocess: Filter, bitmap: BufferId, flooder: JumpFlooder, target: BufferId)
    returns (r: Result<BufferId, FloodError>)
    requires flooder.device == device && flooder.Valid()
    requires bitmap in device.live && target in device.live
    requires bitmap !in flooder.Owned() && target !in flooder.Owned()
    modifies device
    ensures flooder.Valid()
    ensures device.dims == old(device.dims) && device.live == old(device.live)
    ensures r.Err? <==> old(device.dims[target]) != Dims(flooder.width, flooder.height)
    ensures r.Ok? ==>
              var preprocessed := Applied(preprocess, [old(device.content[bitmap])]);
              r.value == flooder.final &&
              device.content[flooder.final] == FloodOutput(preprocessed, Dims(flooder.width, flooder.height)) &&
              device.content[bitmap] == if target == bitmap then preprocessed else old(device.content[bitmap])
    ensures forall b :: b in old(device.dims) && b != target && b !in flooder.Owned() ==>
              device.content[b] == old(device.content[b])
    ensures r.Err? ==> device.content == old(device.content)[target := Applied(preprocess, [old(device.content[bitmap])])]
  {
    device.ApplyFilter(preprocess, [bitmap], target);
    assert Gather(old(device.content), [bitmap]) == [old(device.content[bitmap])];
    ghost var preprocessed := device.content;
    r := flooder.JumpFlood(target);
    if r.Ok? {
      flooder.AfterFloodFacts(preprocessed, preprocessed[target]);
    }
  }

  /** The shared distance decoder with its initial parameters (`originalSize` is set on every use). */
  const SharedPixelDistance := PixelDistance(Dims(512, 512), 1.0, true)

  /** The shared direction decoder; its `originalSize` has no initial value and is set on every use. */
  const SharedPixelDirection := PixelDirection(Dims(0, 0))

  /** `centroidsFromBitmap`: the result holds the nearest-seed coordinates of the bitmap's seeds. */
  method CentroidsFromBitmap(device: Device, bitmap: BufferId, jumpFlooder: JumpFlooder?, result: Option<BufferId>)
    returns (r: Result<BufferId, FloodError>)
    requires PresetArguments(device, bitmap, jumpFlooder, result)
    modifies device
    ensures device.Valid()
    ensures jumpFlooder != null ==> jumpFlooder.Valid()
    ensures old(device.live) <= device.live
    ensures forall b :: b in old(device.dims) ==> b in device.dims && device.dims[b] == old(device.dims[b])
    ensures var floodDims := FlooderDims(jumpFlooder, old(device.dims[bitmap]));
            var resultDims := if result.Some? then old(device.dims[result.value]) else old(device.dims[bitmap]);
            (r.Err? <==> floodDims != resultDims) &&
            (r.Ok? ==>
               r.value in device.live &&
               (result.Some? ==> r.value == result.value && device.live == old(device.live)) &&
               (result.None? ==> r.value !in old(device.dims) && device.live == old(device.live) + {r.value}) &&
               device.content[r.value] ==
                 PipelineOutput(Passthrough, Passthrough, old(device.content[bitmap]), result == Some(bitmap), floodDims))
    ensures jumpFlooder == null && result.None? ==> r.Ok?
    ensures r.Err? ==>
              var preprocessed := Applied(Passthrough, [old(device.content[bitmap])]);
              device.live == old(device.live) + (device.dims.Keys - old(device.dims).Keys) &&
              (result.Some? ==> device.content[result.value] == preprocessed) &&
              (result.None? ==> forall b :: b in device.dims && b !in old(device.dims) ==> device.content[b] == preprocessed) &&
              forall b :: b in old(device.dims) && result != Some(b) ==>
                b in device.dims && device.dims[b] == old(device.dims[b]) && device.content[b] == old(device.content[b])
    ensures r.Ok? && result.None? ==> device.dims[r.value] == old(device.dims[bitmap])
    ensures jumpFlooder != null && result.Some? ==> device.dims.Keys == old(device.dims).Keys
    ensures r.Ok? && jumpFlooder != null ==>
              device.content[jumpFlooder.final] ==
                FloodOutput(Applied(Passthrough, [old(device.content[bitmap])]), Dims(jumpFlooder.width, jumpFlooder.height))
    ensures r.Ok? ==>
            forall b :: b in old(device.dims) && result != Some(b) && (jumpFlooder != null ==> b !in jumpFlooder.Owned()) ==>
              b in device.dims && device.dims[b] == old(device.dims[b]) && device.content[b] == old(device.content[b])
  {
    r := EncodeDecodeBitmap(device, Passthrough, Passthrough, bitmap, jumpFlooder, result);
  }

  /** `distanceFieldFromBitmap`: contour extraction, flood, distance decode. */
  method DistanceFieldFromBitmap(device: Device, bitmap: BufferId, jumpFlooder: JumpFlooder?, result: Option<BufferId>)
    returns (r: Result<BufferId, FloodError>)
    requires PresetArguments(device, bitmap, jumpFlooder, result)
    modifies device
    ensures device.Valid()
    ensures jumpFlooder != null ==> jumpFlooder.Valid()
    ensures old(device.live) <= device.live
    ensures forall b :: b in old(device.dims) ==> b in device.dims && device.dims[b] == old(device.dims[b])
    ensures var floodDims := FlooderDims(jumpFlooder, old(device.dims[bitmap]));
            var resultDims := if result.Some? then old(device.dims[result.value]) else old(device.dims[bitmap]);
            (r.Err? <==> floodDims != resultDims) &&
            (r.Ok? ==>
               r.value in device.live &&
               (result.Some? ==> r.value == result.value && device.live == old(device.live)) &&
               (result.None? ==> r.value !in old(device.dims) && device.live == old(device.live) + {r.value}) &&
               device.content[r.value] ==
                 PipelineOutput(ContourPoints, SharedPixelDistance, old(device.content[bitmap]), result == Some(bitmap), floodDims))
    ensures jumpFlooder == null && result.None? ==> r.Ok?
    ensures r.Err? ==>
              var preprocessed := Applied(ContourPoints, [old(device.content[bitmap])]);
              device.live == old(device.live) + (device.dims.Keys - old(device.dims).Keys) &&
              (result.Some? ==> device.content[result.value] == preprocessed) &&
              (result.None? ==> forall b :: b in device.dims && b !in old(device.dims) ==> device.content[b] == preprocessed) &&
              forall b :: b in old(device.dims) && result != Some(b) ==>
                b in device.dims && device.dims[b] == old(device.dims[b]) && device.content[b] == old(device.content[b])
    ensures r.Ok? && result.None? ==> device.dims[r.value] == old(device.dims[bitmap])
    ensures jumpFlooder != null && result.Some? ==> device.dims.Keys == old(device.dims).Keys
    ensures r.Ok? && jumpFlooder != null ==>
              device.content[jumpFlooder.final] ==
                FloodOutput(Applied(ContourPoints, [old(device.content[bitmap])]), Dims(jumpFlooder.width, jumpFlooder.height))
    ensures r.Ok? ==>
            forall b :: b in old(device.dims) && result != Some(b) && (jumpFlooder != null ==> b !in jumpFlooder.Owned()) ==>
              b in device.dims && device.dims[b] == old(device.dims[b]) && device.content[b] == old(device.content[b])
  {
    r := EncodeDecodeBitmap(device, ContourPoints, SharedPixelDistance, bitmap, jumpFlooder, result);
  }

  /** `directionFieldFromBitmap`: contour extraction, flood, direction decode. */
  method DirectionFieldFromBitmap(device: Device, bitmap: BufferId, jumpFlooder: JumpFlooder?, result: Option<BufferId>)
    returns (r: Result<BufferId, FloodError>)
    requires PresetArguments(device, bitmap, jumpFlooder, result)
    modifies device
    ensures device.Valid()
    ensures jumpFlooder != null ==> jumpFlooder.Valid()
    ensures old(device.live) <= device.live
    ensures forall b :: b in old(device.dims) ==> b in device.dims && device.dims[b] == old(device.dims[b])
    ensures var floodDims := FlooderDims(jumpFlooder, old(device.dims[bitmap]));
            var resultDims := if result.Some? then old(device.dims[result.value]) else old(device.dims[bitmap]);
            (r.Err? <==> floodDims != resultDims) &&
            (r.Ok? ==>
               r.value in device.live &&
               (result.Some? ==> r.value == result.value && device.live == old(device.live)) &&
               (result.None? ==> r.value !in old(device.dims) && device.live == old(device.live) + {r.value}) &&
               device.content[r.value] ==
                 PipelineOutput(ContourPoints, SharedPixelDirection, old(device.content[bitmap]), result == Some(bitmap), floodDims))
    ensures jumpFlooder == null && result.None? ==> r.Ok?
    ensures r.Err? ==>
              var preprocessed := Applied(ContourPoints, [old(device.content[bitmap])]);
              device.live == old(device.live) + (device.dims.Keys - old(device.dims).Keys) &&
              (result.Some? ==> device.content[result.value] == preprocessed) &&
              (result.None? ==> forall b :: b in device.dims && b !in old(device.dims) ==> device.content[b] == preprocessed) &&
              forall b :: b in old(device.dims) && result != Some(b) ==>
                b in device.dims && device.dims[b] == old(device.dims[b]) && device.content[b] == old(device.content[b])
    ensures r.Ok? && result.None? ==> device.dims[r.value] == old(device.dims[bitmap])
    ensures jumpFlooder != null && result.Some? ==> device.dims.Keys == old(device.dims).Keys
    ensures r.Ok? && jumpFlooder != null ==>
              device.content[jumpFlooder.final] ==
                FloodOutput(Applied(ContourPoints, [old(device.content[bitmap])]), Dims(jumpFlooder.width, jumpFlooder.height))
    ensures r.Ok? ==>
            forall b :: b in old(device.dims) && result != Some(b) && (jumpFlooder != null ==> b !in jumpFlooder.Owned()) ==>
              b in device.dims && device.dims[b] == old(device.dims[b]) && device.content[b] == old(device.content[b])
  {
    r := EncodeDecodeBitmap(device, ContourPoints, SharedPixelDirection, bitmap, jumpFlooder, result);
  }

  // ---------------------------------------------------------------------------
  // DistanceField

  /**
   * The first-use allocations of a `DistanceField`: the threshold and contour
   * buffers, sized `size`, then a flooder for that size.
   */
  method AllocateScratch(device: Device, size: Dims) returns (t: BufferId, c: BufferId, flooder: JumpFlooder)
    requires device.Valid() && size.width >= 1 && size.height >= 1
    modifies device
    ensures device.Valid() && flooder.device == device && flooder.Valid()
    ensures Dims(flooder.width, flooder.height) == size
    ensures t in device.dims && device.dims[t] == size && c in device.dims && device.dims[c] == size
    ensures t !in old(device.dims) && c !in old(device.dims) && t != c
    ensures t !in flooder.Owned() && c !in flooder.Owned()
    ensures forall b :: b in flooder.Owned() ==> b !in old(device.dims)
    ensures device.live == old(device.live) + {t, c} + flooder.Owned()
    ensures forall b :: b in old(device.dims) ==>
              b in device.dims && device.dims[b] == old(device.dims[b]) && device.content[b] == old(device.content[b])
  {
    t := device.NewColorBuffer(size);
    c := device.NewColorBuffer(size);
    flooder := new JumpFlooder(device, size.width, size.height);
  }


  /**
   * The `DistanceField` filter: thresholds its source, extracts contours,
   * floods them and writes the unsigned distance into its target. Its scratch
   * buffers and its flooder are allocated on the first `apply`, sized to that
   * call's target, and reused by every later call.
   */
  class DistanceField {
    const device: Device
    var threshold: real
    var distanceScale: real
    var thresholded: Option<BufferId>
    var contoured: Option<BufferId>
    var jumpFlooder: JumpFlooder?

    /** `b` is one of the filter's private buffers. */
    ghost predicate Owns(b: BufferId)
      reads this
    {
      thresholded == Some(b) || contoured == Some(b) ||
      (jumpFlooder != null && |jumpFlooder.coordinates| == 2 && b in jumpFlooder.Owned())
    }

    ghost predicate Valid()
      reads this, device, jumpFlooder
    {
      device.Valid() &&
      (thresholded.Some? <==> jumpFlooder != null) && (contoured.Some? <==> jumpFlooder != null) &&
      (jumpFlooder != null ==>
         jumpFlooder.device == device && jumpFlooder.Valid() &&
         thresholded.value in device.live && contoured.value in device.live &&
         thresholded.value != contoured.value &&
         thresholded.value !in jumpFlooder.Owned() && contoured.value !in jumpFlooder.Owned() &&
         device.dims[thresholded.value] == Dims(jumpFlooder.width, jumpFlooder.height) &&
         device.dims[contoured.value] == Dims(jumpFlooder.width, jumpFlooder.height))
    }

    constructor (device: Device)
      requires device.Valid()
      ensures Valid() && this.device == device
      ensures threshold == 0.5 && distanceScale == 1.0
      ensures thresholded == None && contoured == None && jumpFlooder == null
    {
      this.device := device;
      threshold := 0.5;
      distanceScale := 1.0;
      thresholded := None;
      contoured := None;
      jumpFlooder := null;
    }

    /**
     * The lazy allocations at the start of `apply`, for a target of size
     * `size`. The two scratch buffers and the flooder are only ever created
     * together, on the first call, so one test stands for the source's three.
     */
    method AllocateOnce(size: Dims)
      requires Valid() && size.width >= 1 && size.height >= 1
      modifies this, device
      ensures Valid() && jumpFlooder != null
      ensures threshold == old(threshold) && distanceScale == old(distanceScale)
      ensures old(jumpFlooder) != null ==>
                thresholded == old(thresholded) && contoured == old(contoured) && jumpFlooder == old(jumpFlooder) &&
                unchanged(device)
      ensures old(jumpFlooder) == null ==>
                Dims(jumpFlooder.width, jumpFlooder.height) == size &&
                thresholded.value !in old(device.dims) && contoured.value !in old(device.dims) &&
                (forall b :: b in jumpFlooder.Owned() ==> b !in old(device.dims)) &&
                device.live == old(device.live) + {thresholded.value, contoured.value} + jumpFlooder.Owned() &&
                forall b :: b in old(device.dims) ==>
                  b in device.dims && device.dims[b] == old(device.dims[b]) && device.content[b] == old(device.content[b])
    {
      if jumpFlooder == null {
        var t, c, flooder := AllocateScratch(device, size);
        thresholded := Some(t);
        contoured := Some(c);
        jumpFlooder := flooder;
      }
    }

    /**
     * `apply(source, target)`: never fails with a dimensions mismatch, since
     * the contour buffer always has the flooder's size; the target receives
     * the distance-decoded flood output, cropped or padded to its size.
     */
    method Apply(source: BufferId, target: BufferId)
      requires Valid()
      requires source in device.live && target in device.live && !Owns(source) && !Owns(target)
      requires device.dims[target].width >= 1 && device.dims[target].height >= 1
      modifies this, device
      ensures Valid() && jumpFlooder != null
      ensures threshold == old(threshold) && distanceScale == old(distanceScale)
      ensures old(jumpFlooder) != null ==>
                thresholded == old(thresholded) && contoured == old(contoured) && jumpFlooder == old(jumpFlooder) &&
                device.live == old(device.live)
      ensures old(jumpFlooder) == null ==>
                Dims(jumpFlooder.width, jumpFlooder.height) == old(device.dims[target]) &&
                Covers(Dims(jumpFlooder.squareDim, jumpFlooder.squareDim), old(device.dims[target])) &&
                device.live == old(device.live) + {thresholded.value, contoured.value} + jumpFlooder.Owned()
      ensures old(jumpFlooder) == null ==>
                thresholded.value !in old(device.dims) && contoured.value !in old(device.dims) &&
                forall b :: b in jumpFlooder.Owned() ==> b !in old(device.dims)
      ensures forall b :: b in old(device.dims) && !old(Owns(b)) ==> !Owns(b)
      ensures target in device.dims && device.dims[target] == old(device.dims[target])
      ensures forall b :: b in old(device.dims) && b != target && !old(Owns(b)) ==>
                b in device.dims && device.dims[b] == old(device.dims[b]) && device.content[b] == old(device.content[b])
      ensures var d := Dims(jumpFlooder.width, jumpFlooder.height);
              var contours := Applied(ContourPoints, [Applied(Threshold(threshold), [old(device.content[source])])]);
              var decoded := Applied(PixelDistance(old(device.dims[target]), distanceScale, false), [FloodOutput(contours, d)]);
              device.content[target] ==
                CopyOnto(decoded, Dims(jumpFlooder.squareDim, jumpFlooder.squareDim),
                         old(device.dims[target]), old(device.content[target]))
    {
      AllocateOnce(device.dims[target]);
      Passes(source, target);
    }

    /** The threshold and contour passes of `apply`, into the two scratch buffers. */
    method ExtractContours(source: BufferId)
      requires Valid() && jumpFlooder != null
      requires source in device.live
      modifies device
      ensures Valid()
      ensures device.dims == old(device.dims) && device.live == old(device.live)
      ensures var thresholdedSource := Applied(Threshold(threshold), [old(device.content[source])]);
              device.content ==
                old(device.content)[thresholded.value := thresholdedSource]
                                   [contoured.value := Applied(ContourPoints, [thresholdedSource])]
    {
      var t := thresholded.value;
      device.ApplyFilter(Threshold(threshold), [source], t);
      assert Gather(old(device.content), [source]) == [old(device.content[source])];
      assert Gather(device.content, [t]) == [device.content[t]];
      device.ApplyFilter(ContourPoints, [t], contoured.value);
    }

    /** The passes of `apply` once the scratch buffers and the flooder exist. */
    method Passes(source: BufferId, target: BufferId)
      requires Valid() && jumpFlooder != null
      requires source in device.live && target in device.live && !Owns(source) && !Owns(target)
      modifies device
      ensures Valid()
      ensures device.dims == old(device.dims) && device.live == old(device.live)
      ensures forall b :: b in old(device.dims) && b != target && !Owns(b) ==> device.content[b] == old(device.content[b])
      ensures var d := Dims(jumpFlooder.width, jumpFlooder.height);
              var contours := Applied(ContourPoints, [Applied(Threshold(threshold), [old(device.content[source])])]);
              var decoded := Applied(PixelDistance(old(device.dims[target]), distanceScale, false), [FloodOutput(contours, d)]);
              device.content[target] ==
                CopyOnto(decoded, Dims(jumpFlooder.squareDim, jumpFlooder.squareDim),
                         old(device.dims[target]), old(device.content[target]))
    {
      var flooder := jumpFlooder;
      var c := contoured.value;
      ExtractContours(source);
      ghost var beforeFlood := device.content;
      ghost var contours := beforeFlood[c];
      var r := flooder.JumpFlood(c);
      flooder.AfterFloodFacts(beforeFlood, contours);
      var result := r.value;
      assert device.content[result] == FloodOutput(contours, Dims(flooder.width, flooder.height));
      assert device.content[target] == old(device.content[target]);
      var decode := PixelDistance(device.dims[target], distanceScale, false);
      assert Gather(device.content, [result]) == [device.content[result]];
      device.ApplyFilter(decode, [result], result);
      device.CopyTo(result, target);
    }
  }
}
