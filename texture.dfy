/**
  An OpenGL 2D texture: its size and mipmap level count fixed at creation, a
  mutable "smooth" flag, and the driver calls each operation issues on the
  texture object. The choices the code makes before talking to the driver
  (which storage to allocate, which filters to select, whether to regenerate
  mipmaps, whether an upload buffer has the right size) are pure functions;
  the texture itself is a class whose methods update its fields.
 */
module Glhf {
  import opened GlDriver
  import opened Rect

  /** The message `SetPixels` panics with. */
  const WrongPixelCount := "set pixels: wrong number of pixels"

  /** How an operation ends: normally, or with a Go panic carrying its message. */
  datatype Outcome = Done | Panic(message: string)

  /**
    Minification filter for a smoothing flag and a mipmap level count. It
    samples the mip chain exactly when the texture has one; the smoothing flag
    picks the interpolating variant along the axis that exists (blending
    between levels when there are mipmaps, between texels when there are not).
    With mipmaps and no smoothing the filter still interpolates within a level.
   */
  function MinFilterFor(smooth: bool, mipmapLevels: int): (f: Filter)
    ensures f.UsesMipmaps() <==> mipmapLevels > 0
    ensures smooth <==> (if mipmapLevels > 0 then f.BlendsLevels() else f.InterpolatesTexels())
    ensures f.InterpolatesTexels() <==> smooth || mipmapLevels > 0
  {
    if smooth then
      if mipmapLevels > 0 then LinearMipmapLinear else Linear
    else
      if mipmapLevels > 0 then LinearMipmapNearest else Nearest
  }

  /** Magnification filter: never a mipmap filter, interpolating exactly when smooth. */
  function MagFilterFor(smooth: bool): (f: Filter)
    ensures !f.UsesMipmaps()
    ensures f.InterpolatesTexels() <==> smooth
  {
    if smooth then Linear else Nearest
  }

  /** The two properties of `MinFilterFor` single out its result among all filters. */
  lemma MinFilterUnique(smooth: bool, mipmapLevels: int, g: Filter)
    requires g.UsesMipmaps() <==> mipmapLevels > 0
    requires smooth <==> (if mipmapLevels > 0 then g.BlendsLevels() else g.InterpolatesTexels())
    ensures g == MinFilterFor(smooth, mipmapLevels)
  {
  }

  /** The properties of `MagFilterFor` single out its result among all filters. */
  lemma MagFilterUnique(smooth: bool, g: Filter)
    requires !g.UsesMipmaps()
    requires g.InterpolatesTexels() <==> smooth
    ensures g == MagFilterFor(smooth)
  {
  }

  /** Calls `SetSmooth` issues: the minification filter, then the magnification filter. */
  function SmoothCalls(smooth: bool, mipmapLevels: int): (r: seq<Call>)
    ensures |r| == 2 && r[0].TexParameteri? && r[1].TexParameteri?
    ensures r[0].param.MinFilter? && r[1].param.MagFilter?
    ensures r[0].param.filter.UsesMipmaps() <==> mipmapLevels > 0
    ensures r[1].param.filter.InterpolatesTexels() <==> smooth
  {
    [TexParameteri(MinFilter(MinFilterFor(smooth, mipmapLevels))), TexParameteri(MagFilter(MagFilterFor(smooth)))]
  }

  /** `SetSmooth`'s calls set both filters from the flag and leave the wrap modes alone. */
  lemma SmoothCallsEffect(s: Sampler, smooth: bool, mipmapLevels: int)
    ensures Replay(s, SmoothCalls(smooth, mipmapLevels))
         == s.(minFilter := Some(MinFilterFor(smooth, mipmapLevels)), magFilter := Some(MagFilterFor(smooth)))
  {
    ReplayPair(s, MinFilter(MinFilterFor(smooth, mipmapLevels)), MagFilter(MagFilterFor(smooth)));
  }

  /** Calls `SetWrap` issues: the same mode on the S axis, then on the T axis. */
  function WrapCalls(wrap: Wrap): (r: seq<Call>)
    ensures |r| == 2 && r[0].TexParameteri? && r[1].TexParameteri?
    ensures r[0].param.WrapS? && r[1].param.WrapT?
    ensures r[0].param.wrap == wrap && r[1].param.wrap == wrap
  {
    [TexParameteri(WrapS(wrap)), TexParameteri(WrapT(wrap))]
  }

  /** `SetWrap`'s calls give both axes the mode and leave the filters alone. */
  lemma WrapCallsEffect(s: Sampler, wrap: Wrap)
    ensures Replay(s, WrapCalls(wrap)) == s.(wrapS := Some(wrap), wrapT := Some(wrap))
  {
    ReplayPair(s, WrapS(wrap), WrapT(wrap));
  }

  /**
    Calls `SetPixels` issues once the size check passes: the upload into
    level 0, followed by a regeneration of the mip chain exactly when the
    texture has mipmap levels. None of them touches the sampler parameters.
   */
  function UploadCalls(x: int, y: int, w: int, h: int, pixels: seq<uint8>, mipmapLevels: int): (r: seq<Call>)
    ensures |r| > 0 && r[0] == TexSubImage2D(x, y, w, h, pixels)
    ensures GenerateMipmap in r <==> mipmapLevels > 0
    ensures PixelCallsOnly(r)
  {
    [TexSubImage2D(x, y, w, h, pixels)] + if mipmapLevels > 0 then [GenerateMipmap] else []
  }

  /**
    Calls `NewTexture` issues to create the storage: with mipmap levels, an
    immutable mip chain whose level 0 is then uploaded and whose other levels
    are generated from it; without, one mutable image holding the pixels.
   */
  function AllocationCalls(width: int, height: int, mipmapLevels: int, pixels: seq<uint8>): (r: seq<Call>)
    ensures |r| > 0 && (r[0].TexStorage2D? <==> mipmapLevels > 0)
    ensures r[0].TexStorage2D? ==>
      r[0] == TexStorage2D(mipmapLevels, width, height) && r[1..] == UploadCalls(0, 0, width, height, pixels, mipmapLevels)
    ensures !r[0].TexStorage2D? ==> r == [TexImage2D(width, height, pixels)]
    ensures GenerateMipmap in r <==> mipmapLevels > 0
    ensures PixelCallsOnly(r)
  {
    if mipmapLevels > 0 then
      [TexStorage2D(mipmapLevels, width, height), TexSubImage2D(0, 0, width, height, pixels), GenerateMipmap]
    else
      [TexImage2D(width, height, pixels)]
  }

  /** Calling `SetSmooth` twice leaves what the second call alone would leave. */
  lemma SmoothLastWins(s: Sampler, first: bool, second: bool, mipmapLevels: int)
    ensures Replay(s, SmoothCalls(first, mipmapLevels) + SmoothCalls(second, mipmapLevels))
         == Replay(s, SmoothCalls(second, mipmapLevels))
  {
    ReplayAppend(s, SmoothCalls(first, mipmapLevels), SmoothCalls(second, mipmapLevels));
    SmoothCallsEffect(s, first, mipmapLevels);
    SmoothCallsEffect(Replay(s, SmoothCalls(first, mipmapLevels)), second, mipmapLevels);
    SmoothCallsEffect(s, second, mipmapLevels);
  }

  /** Go's `copy(dst[start:start+len(src)], src)`: overwrites that range of `dst` with `src`. */
  method Copy(dst: array<uint8>, start: int, src: seq<uint8>)
    requires 0 <= start && start + |src| <= dst.Length
    modifies dst
    ensures dst[..] == old(dst[..start]) + src + old(dst[start + |src|..])
  {
    forall k | 0 <= k < |src| {
      dst[start + k] := src[k];
    }
    assert dst[..] == old(dst[..start]) + src + old(dst[start + |src|..]);
  }

  /**
    One iteration of the copy loop in `Pixels`: row `i` of the rectangle is
    sliced out of the full image and copied to its place in `sub`.
   */
  method CopyRow(sub: array<uint8>, image: array<uint8>, ghost img: seq<uint8>,
                 width: int, x: int, y: int, w: int, h: int, i: int)
    requires sub != image && image[..] == img
    requires SlicesInRange(|img|, width, x, y, w, h) && 0 <= i < h
    requires SlicesInRange(|img|, width, x, y, w, i) && SlicesInRange(|img|, width, x, y, w, i + 1)
    requires sub.Length == w * h * 4 && 0 <= i * w * 4 <= (i + 1) * w * 4 <= sub.Length
    requires sub[..] == SubRect(img, width, x, y, w, i) + Zeros(sub.Length - i * w * 4)
    modifies sub
    ensures sub[..] == SubRect(img, width, x, y, w, i + 1) + Zeros(sub.Length - (i + 1) * w * 4)
  {
    ghost var prev := SubRect(img, width, x, y, w, i);
    ghost var before := sub[..];
    var row := image[RowStart(width, x, y, i)..RowEnd(width, x, y, w, i)];
    var start := i * w * 4;
    assert start == |prev| && start + |row| <= sub.Length && start + |row| == (i + 1) * w * 4
      && SubRect(img, width, x, y, w, i + 1) == prev + row by {
      SubRectStep(img, width, x, y, w, h, i);
      SlicesInRangeWidth(|img|, width, x, y, w, h);
      RowOffsets(w, h, i);
    }
    Copy(sub, start, row);
    FillNext(before, sub[..], prev, row);
  }

  /** Before the copy loop runs, no row is in place and the whole buffer is zero. */
  lemma CopyLoopStart(image: seq<uint8>, width: int, x: int, y: int, w: int, h: int, buf: seq<uint8>)
    requires SlicesInRange(|image|, width, x, y, w, h)
    requires w * h * 4 >= 0 && buf == Zeros(w * h * 4)
    ensures SlicesInRange(|image|, width, x, y, w, 0)
    ensures buf == SubRect(image, width, x, y, w, 0) + Zeros(|buf| - 0 * w * 4)
  {
    assert SubRect(image, width, x, y, w, 0) == [];
  }

  /** When the copy loop stops, every row is in place and the rest is still zero. */
  lemma CopyLoopDone(image: seq<uint8>, width: int, x: int, y: int, w: int, h: int, i: int, buf: seq<uint8>)
    requires SlicesInRange(|image|, width, x, y, w, h) && SlicesInRange(|image|, width, x, y, w, i)
    requires i == RowCount(h)
    requires |buf| == w * h * 4
    requires buf == SubRect(image, width, x, y, w, i) + Zeros(|buf| - i * w * 4)
    ensures buf == SubRect(image, width, x, y, w, h)
  {
    if h <= 0 {
      assert SubRect(image, width, x, y, w, i) == [];
    } else {
      assert i == h;
      assert |buf| - i * w * 4 == 0;
    }
  }

  /** An OpenGL texture. */
  class Texture {
    const width: int
    const height: int
    const mipmapLevels: int
    var smooth: bool
    /** The state-changing driver calls issued on this texture's object, oldest first. */
    ghost var calls: seq<Call>

    /** The sampler parameters the driver holds for this texture. */
    ghost function SamplerState(): Sampler
      reads this
    {
      Replay(Unset, calls)
    }

    /**
      The storage matches the mipmap level count, no mip chain is ever
      generated for a texture without one, the driver's filters agree with the
      cached smoothing flag, and both axes wrap alike.
     */
    ghost predicate Valid()
      reads this
    {
      |calls| > 0 &&
      (calls[0].TexStorage2D? <==> mipmapLevels > 0) &&
      (GenerateMipmap in calls ==> mipmapLevels > 0) &&
      SamplerState().minFilter == Some(MinFilterFor(smooth, mipmapLevels)) &&
      SamplerState().magFilter == Some(MagFilterFor(smooth)) &&
      SamplerState().wrapS.Some? && SamplerState().wrapT == SamplerState().wrapS
    }

    /**
      NewTexture: allocates the storage the mipmap level count calls for and
      uploads `pixels` into it, then applies the smoothing flag and clamps
      both axes to the border.
     */
    constructor (width: int, height: int, mipmapLevels: int, smooth: bool, pixels: seq<uint8>)
      ensures Width() == width && Height() == height && this.mipmapLevels == mipmapLevels
      ensures Smooth() == smooth
      ensures calls == AllocationCalls(width, height, mipmapLevels, pixels)
        + SmoothCalls(smooth, mipmapLevels) + WrapCalls(ClampToBorder)
      ensures SamplerState() == Sampler(Some(MinFilterFor(smooth, mipmapLevels)), Some(MagFilterFor(smooth)),
                                        Some(ClampToBorder), Some(ClampToBorder))
      ensures Valid()
    {
      this.width := width;
      this.height := height;
      this.mipmapLevels := mipmapLevels;
      this.smooth := false;
      calls := [];
      new;
      if mipmapLevels > 0 {
        calls := calls + [TexStorage2D(mipmapLevels, width, height)];
        calls := calls + [TexSubImage2D(0, 0, width, height, pixels)];
        calls := calls + [GenerateMipmap];
      } else {
        calls := calls + [TexImage2D(width, height, pixels)];
      }
      ghost var storageCalls := calls;
      assert storageCalls == AllocationCalls(width, height, mipmapLevels, pixels);
      ReplayPixelCalls(Unset, storageCalls);
      SetSmooth(smooth);
      SetWrap(ClampToBorder);
      assert GenerateMipmap !in SmoothCalls(smooth, mipmapLevels) + WrapCalls(ClampToBorder);
    }

    /** Width of the texture in pixels. */
    function Width(): int
      reads this
    {
      width
    }

    /** Height of the texture in pixels. */
    function Height(): int
      reads this
    {
      height
    }

    /** Whether the texture is drawn smoothly: on a valid texture, whether magnification interpolates. */
    function Smooth(): (b: bool)
      reads this
      ensures Valid() ==> (b <==> SamplerState().magFilter == Some(Linear))
    {
      smooth
    }

    /**
      Sets the content of the sub-region `(x, y, w, h)` of level 0. Panics,
      issuing nothing, when `pixels` is not exactly `w * h * 4` bytes; otherwise
      uploads and, when the texture has mipmaps, regenerates them.
     */
    method SetPixels(x: int, y: int, w: int, h: int, pixels: seq<uint8>) returns (r: Outcome)
      modifies this`calls
      ensures r == if |pixels| == w * h * 4 then Done else Panic(WrongPixelCount)
      ensures calls == old(calls) + if r.Done? then UploadCalls(x, y, w, h, pixels, mipmapLevels) else []
      ensures Smooth() == old(Smooth())
      ensures SamplerState() == old(SamplerState())
      ensures old(Valid()) ==> Valid()
    {
      if |pixels| != w * h * 4 {
        return Panic(WrongPixelCount);
      }
      calls := calls + [TexSubImage2D(x, y, w, h, pixels)];
      if mipmapLevels > 0 {
        calls := calls + [GenerateMipmap];
      }
      r := Done;
      ReplayAppend(Unset, old(calls), UploadCalls(x, y, w, h, pixels, mipmapLevels));
      ReplayPixelCalls(old(SamplerState()), UploadCalls(x, y, w, h, pixels, mipmapLevels));
    }

    /**
      Returns the content of the sub-region `(x, y, w, h)`, given `image`, the
      full level-0 image the driver reads back (`width * height * 4` bytes).
      The precondition is exactly that none of Go's slice operations panics.
     */
    method Pixels(x: int, y: int, w: int, h: int, image: array<uint8>) returns (sub: array<uint8>)
      requires image.Length == width * height * 4
      requires SlicesInRange(image.Length, width, x, y, w, h)
      ensures fresh(sub) && sub.Length == w * h * 4
      ensures sub[..] == SubRect(image[..], width, x, y, w, h)
    {
      sub := new uint8[w * h * 4](_ => 0);
      var texWidth := width;
      ghost var img := image[..];
      assert sub[..] == Zeros(w * h * 4);
      CopyLoopStart(img, texWidth, x, y, w, h, sub[..]);
      var i := 0;
      while i < h
        invariant 0 <= i && (h < 0 ==> i == 0) && (h >= 0 ==> i <= h)
        invariant image[..] == img
        invariant SlicesInRange(|img|, texWidth, x, y, w, i)
        invariant sub[..] == SubRect(img, texWidth, x, y, w, i) + Zeros(sub.Length - i * w * 4)
      {
        SlicesInRangePrefix(|img|, texWidth, x, y, w, h, i + 1);
        SlicesInRangeWidth(|img|, texWidth, x, y, w, h);
        RowOffsets(w, h, i);
        CopyRow(sub, image, img, texWidth, x, y, w, h, i);
        i := i + 1;
      }
      CopyLoopDone(img, texWidth, x, y, w, h, i, sub[..]);
    }

    /**
      Sets whether the texture is drawn smoothly or pixely: caches the flag and
      selects the matching filters; nothing else changes.
     */
    method SetSmooth(smooth: bool)
      modifies this`smooth, this`calls
      ensures Smooth() == smooth
      ensures calls == old(calls) + SmoothCalls(smooth, mipmapLevels)
      ensures SamplerState() == old(SamplerState()).(minFilter := Some(MinFilterFor(smooth, mipmapLevels)),
                                                      magFilter := Some(MagFilterFor(smooth)))
      ensures old(Valid()) ==> Valid()
    {
      this.smooth := smooth;
      if smooth {
        if mipmapLevels > 0 {
          calls := calls + [TexParameteri(MinFilter(LinearMipmapLinear))];
        } else {
          calls := calls + [TexParameteri(MinFilter(Linear))];
        }
        calls := calls + [TexParameteri(MagFilter(Linear))];
      } else {
        if mipmapLevels > 0 {
          calls := calls + [TexParameteri(MinFilter(LinearMipmapNearest))];
        } else {
          calls := calls + [TexParameteri(MinFilter(Nearest))];
        }
        calls := calls + [TexParameteri(MagFilter(Nearest))];
      }
      ReplayAppend(Unset, old(calls), SmoothCalls(smooth, mipmapLevels));
      SmoothCallsEffect(old(SamplerState()), smooth, mipmapLevels);
    }

    /** Sets the wrap mode of both texture axes to `wrap`. */
    method SetWrap(wrap: Wrap)
      modifies this`calls
      ensures calls == old(calls) + WrapCalls(wrap)
      ensures Smooth() == old(Smooth())
      ensures SamplerState() == old(SamplerState()).(wrapS := Some(wrap), wrapT := Some(wrap))
      ensures old(Valid()) ==> Valid()
    {
      calls := calls + [TexParameteri(WrapS(wrap)), TexParameteri(WrapT(wrap))];
      ReplayAppend(Unset, old(calls), WrapCalls(wrap));
      WrapCallsEffect(old(SamplerState()), wrap);
    }
  }
}
