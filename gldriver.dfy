/**
  The part of the OpenGL driver that a texture object touches, seen from the
  outside: the state-changing calls issued on one texture object, and the
  sampler parameters (filters and wrap modes) those calls leave behind.
  The driver's pixel storage and its mipmap downsampling are not modelled;
  only which calls were made, in which order and with which arguments.
 */
module GlDriver {

  /** One colour channel of an RGBA pixel, Go's `uint8`. */
  newtype uint8 = x: int | 0 <= x < 256

  datatype Option<T> = None | Some(value: T)

  /** Texture coordinate wrap modes, kept opaque (their GL enum values are not modelled). */
  datatype Wrap = ClampToEdge | ClampToBorder | Repeat

  /** The texture filters the texture code selects from. */
  datatype Filter = Nearest | Linear | LinearMipmapNearest | LinearMipmapLinear
  {
    /** Samples from the mip chain rather than from level 0 alone. */
    predicate UsesMipmaps() {
      LinearMipmapNearest? || LinearMipmapLinear?
    }

    /** Interpolates between neighbouring texels inside one level. */
    predicate InterpolatesTexels() {
      !Nearest?
    }

    /** Blends the two mip levels nearest to the sampled size. */
    predicate BlendsLevels() {
      LinearMipmapLinear?
    }
  }

  /** A `glTexParameteri` setting on the 2D texture target. */
  datatype Param =
    | MinFilter(filter: Filter)
    | MagFilter(filter: Filter)
    | WrapS(wrap: Wrap)
    | WrapT(wrap: Wrap)

  /** A state-changing driver call on the bound texture object. */
  datatype Call =
    | TexStorage2D(levels: int, width: int, height: int)
    | TexImage2D(width: int, height: int, pixels: seq<uint8>)
    | TexSubImage2D(x: int, y: int, w: int, h: int, pixels: seq<uint8>)
    | GenerateMipmap
    | TexParameteri(param: Param)

  /** Sampler parameters of a texture object; `None` means this code never set it. */
  datatype Sampler = Sampler(
    minFilter: Option<Filter>,
    magFilter: Option<Filter>,
    wrapS: Option<Wrap>,
    wrapT: Option<Wrap>)

  const Unset := Sampler(None, None, None, None)

  /** Effect of one call on the sampler parameters. */
  function Apply(s: Sampler, c: Call): Sampler {
    match c
    case TexParameteri(MinFilter(f)) => s.(minFilter := Some(f))
    case TexParameteri(MagFilter(f)) => s.(magFilter := Some(f))
    case TexParameteri(WrapS(m)) => s.(wrapS := Some(m))
    case TexParameteri(WrapT(m)) => s.(wrapT := Some(m))
    case _ => s
  }

  /** Sampler parameters after issuing `calls`, oldest first, starting from `s`. */
  function Replay(s: Sampler, calls: seq<Call>): Sampler
    decreases |calls|
  {
    if calls == [] then s else Replay(Apply(s, calls[0]), calls[1..])
  }

  /** None of the calls sets a texture parameter. */
  predicate PixelCallsOnly(calls: seq<Call>) {
    forall i :: 0 <= i < |calls| ==> !calls[i].TexParameteri?
  }

  /** Issuing two batches of calls is issuing their concatenation. */
  lemma {:induction false} ReplayAppend(s: Sampler, t: seq<Call>, u: seq<Call>)
    ensures Replay(s, t + u) == Replay(Replay(s, t), u)
    decreases |t|
  {
    if t == [] {
      assert t + u == u;
    } else {
      assert (t + u)[0] == t[0];
      assert (t + u)[1..] == t[1..] + u;
      ReplayAppend(Apply(s, t[0]), t[1..], u);
    }
  }

  /** Pixel uploads and mipmap generation leave the sampler parameters alone. */
  lemma {:induction false} ReplayPixelCalls(s: Sampler, calls: seq<Call>)
    requires PixelCallsOnly(calls)
    ensures Replay(s, calls) == s
    decreases |calls|
  {
    if calls != [] {
      assert !calls[0].TexParameteri?;
      assert PixelCallsOnly(calls[1..]) by {
        forall i | 0 <= i < |calls[1..]| ensures !calls[1..][i].TexParameteri? {
          assert calls[1..][i] == calls[i + 1];
        }
      }
      ReplayPixelCalls(s, calls[1..]);
    }
  }

  /** Replaying two parameter settings applies them in order. */
  lemma ReplayPair(s: Sampler, a: Param, b: Param)
    ensures Replay(s, [TexParameteri(a), TexParameteri(b)])
         == Apply(Apply(s, TexParameteri(a)), TexParameteri(b))
  {
    var calls := [TexParameteri(a), TexParameteri(b)];
    var first := Apply(s, TexParameteri(a));
    assert calls[1..] == [TexParameteri(b)];
    assert Replay(s, calls) == Replay(first, [TexParameteri(b)]);
    assert [TexParameteri(b)][1..] == [];
    assert Replay(first, [TexParameteri(b)]) == Replay(Apply(first, TexParameteri(b)), []);
  }
}
