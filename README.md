# glhf texture, modelled in Dafny

This project models `Texture` from the glhf package (`texture.go`). glhf is a
thin Go wrapper over OpenGL. A `Texture` has a width and a height, a mipmap
level count (all three fixed when `NewTexture` creates it) and a mutable
"smooth" flag. Its methods choose and issue OpenGL calls on the texture object:

- `NewTexture` allocates the storage and uploads the initial pixels. It then
  selects the filters and clamps both axes to the border.
- `SetPixels` uploads a sub-region and, when the texture has mipmap levels,
  regenerates the mipmaps.
- `Pixels` reads the level-0 image back and copies a sub-rectangle out of it.
- `SetSmooth` and `SetWrap` change the sampling parameters.

The project has three modules:

- `GlDriver` (`gldriver.dfy`) describes the driver as the texture sees it.
  - Each state-changing call (`TexStorage2D`, `TexImage2D`, `TexSubImage2D`,
    `GenerateMipmap`, `TexParameteri`) is a value of the `Call` datatype.
  - The sampler parameters that a sequence of calls leaves behind (minification
    and magnification filter, S and T wrap mode) are computed by `Replay`, a
    fold over the calls.
- `Rect` (`rect.dfy`) specifies the sub-rectangle copy.
  - `SubRect` is the sequence of rectangle rows cut from a row-major RGBA image,
    4 bytes per pixel.
  - `SlicesInRange` holds exactly when none of the `make` calls and slice
    expressions of `Pixels` that follow the readback panics.
- `Glhf` (`texture.dfy`) holds the decisions as functions: the filter choice,
  the storage choice and the upload calls. It also holds the class `Texture`.
  - `Texture` has the constant fields `width`, `height` and `mipmapLevels`, set
    once by the constructor, the mutable field `smooth`, and a ghost field
    `calls`, the trace of driver calls issued on the texture.
  - `Valid()` is the invariant its methods preserve:
    - the storage agrees with the mipmap level count;
    - no mip chain is generated for a texture without mipmaps;
    - the driver's filters agree with the cached flag;
    - both axes wrap alike.
  - The panic of `SetPixels` on a buffer of the wrong size is its result
    `Panic(message)` of the `Outcome` datatype. The panics `Pixels` can hit
    (a slice out of range, `make` with a negative length) are excluded by its
    precondition instead, which holds exactly when none of them happens.
  - `Pixels` works on arrays, as the Go code works on slices.
    - It allocates a zeroed buffer of `w*h*4` bytes.
    - A loop copies one row at a time.
    - Its proof is that the buffer equals `SubRect`.

## Model

| member | source | states |
|---|---|---|
| Glhf.Texture.Pixels | texture.go:130-146 | Whenever none of Go's slice expressions can panic, the result is a newly allocated array of `w*h*4` bytes holding the rectangle's rows of the full `width*height*4` image, one after the other. |
| Glhf.CopyRow | texture.go:141-143 | One loop iteration: with rows `0..i-1` in place and the rest still zero, afterwards rows `0..i` are in place and the rest is still zero. |
| Glhf.Copy | texture.go:143 | `copy` overwrites exactly the range `[start, start+len(src))` of the destination with `src` and keeps every other byte. |
| Rect.SubRect | texture.go:139-145 | The bytes `Pixels` returns, defined as the rectangle's rows one after the other (the zeroed buffer when there is no row). The contract states the result is exactly `w*h*4` bytes, the size of the buffer Go allocates, on the whole no-panic domain, including negative `w` and `h`. |
| Rect.SubRectRow | texture.go:140-144 | Bytes `[i*w*4, (i+1)*w*4)` of the result are the image bytes of row `y+i` from column `x` to column `x+w`. |
| Rect.SubRectPixel | texture.go:140-144 | Channel `c` of result pixel `(j, i)` is channel `c` of image pixel `(x+j, y+i)`. |
| Rect.SlicesInRangeBounds | texture.go:139-142 | Closed form of Go's no-panic condition: for a texture of non-negative width and at least one row, the slicing stays in range iff `w >= 0`, the first row starts at a non-negative offset and the last row ends inside the image. |
| Rect.SlicesInRangePrefix | texture.go:140-142 | If every row slice of an `h`-row rectangle is in range, then so is every row slice of its first `i` rows. |
| Rect.InsideSlicesInRange | texture.go:131-142 | A rectangle lying inside the texture never makes the row slicing panic. |
| Rect.OverhangWrapsToNextRow | texture.go:140-142 | The code does not check the rectangle against the texture. In any texture at least two rows high, a one-row rectangle in the first row that sticks out on the right by at most one row width is accepted, and its overhang is read from the start of the next image row. (In the last image row such an overhang runs past the end of the image and Go panics.) |
| Glhf.MinFilterFor | texture.go:154-167 | The minification filter samples the mip chain exactly when there are mipmap levels. Smoothing means blending between levels when there are mipmaps and interpolating texels when there are not. The filter interpolates texels iff smooth or mipmapped. |
| Glhf.MinFilterUnique | texture.go:154-167 | The first two properties of `MinFilterFor` single out its result among all filters. |
| Glhf.MagFilterFor | texture.go:161-169 | The magnification filter never uses mipmaps and interpolates exactly when smooth. |
| Glhf.MagFilterUnique | texture.go:161-169 | Those two properties single out the magnification filter. |
| Glhf.SmoothCalls | texture.go:154-170 | `SetSmooth` issues exactly two parameter settings: first the minification filter, which uses mipmaps iff there are levels, then the magnification filter, which interpolates iff smooth. |
| Glhf.SmoothCallsEffect | texture.go:152-171 | The calls `SetSmooth` issues set the minification and magnification filters to the chosen ones and leave both wrap modes as they were. |
| Glhf.SmoothLastWins | texture.go:152-171 | Calling `SetSmooth` twice leaves the sampler exactly as the second call alone would. |
| Glhf.WrapCalls | texture.go:174-175 | The contract pins down the two calls `SetWrap` issues: the S axis, then the T axis, both with the requested mode. What they do to the sampler is stated by `Glhf.WrapCallsEffect`. |
| Glhf.WrapCallsEffect | texture.go:173-176 | The calls `SetWrap` issues give the S and T axes the same mode and leave the filters alone. |
| Glhf.UploadCalls | texture.go:111-125 | A successful `SetPixels` first uploads into level 0. It regenerates the mip chain iff the texture has mipmap levels, and it never changes a sampler parameter. |
| Glhf.AllocationCalls | texture.go:46-72 | With mipmap levels, `NewTexture` allocates immutable storage of that many levels and then issues the same calls as a full-size `SetPixels`. Without them, it issues one `TexImage2D` holding the pixels. The mip chain is generated iff there are levels, and no sampler parameter is touched. |
| Glhf.Texture.constructor | texture.go:28-83 | `NewTexture`: `Width()`, `Height()` and the level count are the arguments and `Smooth()` is the flag. The calls are the storage allocation, then the smoothing filters, then `CLAMP_TO_BORDER` on both axes. The texture satisfies `Valid()`. |
| Glhf.Texture.Smooth | texture.go:178-181 | On a valid texture the cached flag is true iff the driver's magnification filter is `LINEAR`. |
| Glhf.Texture.SetPixels | texture.go:107-127 | It panics with "set pixels: wrong number of pixels", issuing nothing, iff `len(pixels) != w*h*4`. Otherwise it issues the upload calls. The flag and the sampler parameters never change, and `Valid()` is preserved. |
| Glhf.Texture.SetSmooth | texture.go:152-171 | It sets the flag and issues exactly the filter calls. Afterwards the driver's filters are those chosen for the flag and the level count, the wrap modes are unchanged, and `Valid()` is preserved. |
| Glhf.Texture.SetWrap | texture.go:173-176 | It issues the mode for S, then for T. Afterwards both axes have that mode, and the filters and flag are unchanged. `Valid()` is preserved. |
| GlDriver.ReplayAppend | texture.go:77-78 | Issuing two batches of calls one after the other is issuing their concatenation. This is how the effect of `NewTexture` calling `SetSmooth` and then `SetWrap` composes. |
| GlDriver.ReplayPixelCalls | texture.go:46-72 | Storage allocation, pixel uploads and mipmap generation leave every sampler parameter as it was. |

## Left out

- The texture binding (`binder`, `Begin`, `End`, the deferred `End` in `NewTexture`) and `ID` are not modelled. The trace holds the calls on the texture's own object, as if it were bound.
- `gl.GenTextures`, the finalizer and `delete` (which deletes the object on the main thread) are not modelled: object allocation, garbage collection and the main-thread queue are outside the model.
- The border colour set through `TexParameterfv` in `NewTexture` is not modelled. It is a floating-point vector, and it never changes.
- The GL enum values behind `CLAMP_TO_EDGE`, `CLAMP_TO_BORDER` and `REPEAT` are not modelled. `Wrap` is an enumeration with three cases, so a Go `Wrap` holding some other integer is not represented.
- What the driver stores as pixels is not modelled. This includes the texel contents, the downsampling done by `GenerateMipmap`, and the GL errors the driver raises for a rectangle outside the texture or a level count it rejects. As a result there is no `SetPixels`-then-`Pixels` round trip: `Pixels` receives the read-back level-0 image as its `image` argument instead of calling `GetTexImage`.
- Go's `int` is 32 or 64 bits wide, depending on the platform, and the driver arguments are converted to `int32`. The model uses unbounded integers throughout, so overflow in `w*h*4` and in the row offsets, and the truncation of those conversions, are not represented.
- `Width` and `Height` are plain getters with no contract of their own. What they return is stated by the constructor, and the fields they read are constant.
- Behaviour of the code a caller may not expect, which the model keeps as written:
  - `NewTexture` accepts a pixel buffer of any length. It does not check that `pixels` is `width*height*4` bytes.
  - `Pixels` does not check that the rectangle lies inside the texture. It requires only what keeps Go from panicking (`Rect.SlicesInRange`), and `Rect.OverhangWrapsToNextRow` shows what that admits.
  - The size mismatch in `SetPixels` is a panic with a fixed message, which does not name the expected and actual byte counts.
  - The documentation of `SetSmooth` says the "pixely" setting always chooses the nearest pixel. That holds for magnification and for textures without mipmaps. With mipmap levels the non-smooth minification filter is `LINEAR_MIPMAP_NEAREST`, which still interpolates between texels within the chosen level. The third `ensures` of `Glhf.MinFilterFor` states this.
- `SetPixels`, `Pixels`, `SetSmooth` and `SetWrap` rely on the caller having bound the texture. That precondition is not modelled, because the code neither checks it nor establishes it.
