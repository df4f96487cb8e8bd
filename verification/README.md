# OpenGraphImage compositor, modelled in Dafny

This project models the `OpenGraphImage` class of the `og-image` package
(`src/OpenGraphImage.php`). The class composes an Open Graph card in a fixed
sequence of layers on a canvas provided by the Intervention Image library:

1. a canvas of the configured size, filled with the background colour;
2. an optional background photo, which may be scaled to fill the canvas,
   may pass through a chain of named effects, and is then centred;
3. an optional translucent overlay rectangle in a hex colour;
4. the text;
5. an optional logo.

`save` then encodes the card as PNG, JPEG or WebP, chosen by the extension of
the target path.

The image library is not modelled itself. Every call that creates, reads,
transforms, draws on or encodes an image becomes an `Event` appended to a
trace, `calls`. The file system, as `file_exists` and the image reader see it,
is a `Disk`: a map from path to the pixel size of the image stored there. The
size queries `width()` and `height()` are answered by the `Disk`, and the
manager `ImageManager::withDriver` returns is the `driver` field of the events
that use it.

Files:

- `ascii.dfy` (module `Ascii`): ASCII letter case, defined on its own terms, so
  that the lower-casing of `save` and the case-blind hex digits of the
  overlay colour can be stated against it.
- `colour.dfy` (module `Colour`): the `#rgb` shorthand expansion and
  `#%2x%2x%2x` decoding of the overlay colour, and a canonical formatter that
  inverts the decoder.
- `geometry.dfy` (module `Geometry`): the "fill" rule that chooses which side of
  the background photo to scale.
- `effects.dfy` (module `Effects`): the whitelist filter of the effect chain and
  how arguments are dispatched.
- `export.dfy` (module `Export`): the extension-to-encoder rule of `save`.
- `raster.dfy` (module `Raster`): the trace events and their layer numbers,
  plus generic lemmas about traces that are built layer by layer.
- `compositor.dfy` (module `Compositor`): the settings, the render written as
  functions from settings to calls (`RenderEvents` and one function per step),
  lemmas about the render, and the class `OpenGraphImage`. Its methods change
  `calls`, `backgroundPath` and `overlayColor` step by step, and each is proved
  to make exactly the calls that its step's function describes.
- `wrappers.dfy`: `Option` and `Result`.

Settings that the PHP class never reassigns after construction are `const`
fields. `backgroundPath` (replaced by `make`), `overlayColor` (rewritten by
`drawOverlay`), the call trace and the "image created" flag are `var` fields.

Two details of the code shape what the model promises:

- The guard at src/OpenGraphImage.php:374 is an `&&`, so no scale is issued
  when either side of the photo already matches the canvas. Such a photo does
  not always cover the canvas (`Geometry.MatchingSideSkipsScale`).
- The code raises no error for a malformed colour or an unknown logo
  position, and the model has none.

The package's tests (tests/OpenGraphImageTest.php) expect `save` to return
`false` in two situations where the code does something else:

- before any `make`, at lines 53-57, the code reads the uninitialised `$image`
  property, which PHP rejects with an error. The model returns
  `Failure(ImageNotCreated)`.
- for WebP on GD, at lines 71-75, the code returns `true` once the library has
  encoded. Whether GD can encode WebP is outside this code.

## Model

| member | source | states |
|---|---|---|
| Colour.ExpandShort | src/OpenGraphImage.php:433-435 | a 4-character `#rgb` is rewritten to `#rrggbb`, each digit doubled, and the result is a well-formed `#` plus six hex digits |
| Colour.ParseShort | src/OpenGraphImage.php:433-437 | decoding an expanded `#rgb` gives each channel as its digit times 17, so `#abc` and `#aabbcc` are the same colour |
| Colour.ExpandIdempotent | src/OpenGraphImage.php:433-435 | rewriting an already rewritten colour changes nothing; the function's contract adds that only 4-character strings are touched and the result never has length 4 |
| Colour.Expand | src/OpenGraphImage.php:433-435 | a string not of length 4 is left as it is; one of length 4 becomes `#` followed by at most six characters; the result never has length 4 |
| Colour.Parse | src/OpenGraphImage.php:437 | a `#` followed by six hex digits decodes to three channels, each in 0..255 |
| Colour.HexValueIgnoresCase | src/OpenGraphImage.php:437 | `%x` reads a letter digit the same in either case |
| Colour.ParseIgnoresCase | src/OpenGraphImage.php:437 | two spellings that differ only in the case of their letter digits decode to the same colour; with `Colour.FormatParse` this fixes the value of every spelling, so `#FFFFFF` is white |
| Colour.ParseFormat | src/OpenGraphImage.php:437 | decoding the canonical `#rrggbb` spelling of any in-range colour gives that colour back; `Parse`'s own contract keeps every channel in 0..255 |
| Colour.FormatParse | src/OpenGraphImage.php:437 | a colour spelled with digits and lower-case letters is its own canonical spelling, so decoding loses nothing |
| Geometry.FillScale | src/OpenGraphImage.php:371-379 | the scale issued is to the canvas width or to the canvas height; none is issued only when a side of the photo already equals the canvas side |
| Geometry.FillScaleAxis | src/OpenGraphImage.php:371-379 | when both sides differ from the canvas, the photo is scaled to the canvas width if its width/height ratio is at most the canvas's, and to the canvas height otherwise |
| Geometry.FillScaleCovers | src/OpenGraphImage.php:367-380 | the chosen scale makes one side equal to the canvas side and the other at least the canvas side, so the photo covers the canvas |
| Geometry.FillScaleMinimal | src/OpenGraphImage.php:367-380 | no smaller proportional factor covers the canvas |
| Geometry.MatchingSideSkipsScale | src/OpenGraphImage.php:374 | for all sizes: when either side of the photo equals the canvas side, no scale is issued; if the other side is then shorter than the canvas's, the unscaled photo does not cover the canvas |
| Effects.ListedIsMembership | src/OpenGraphImage.php:412 | the name-by-name whitelist test is exactly membership of the list |
| Effects.Filter | src/OpenGraphImage.php:410-414 | the filtered chain is never longer than the configured one; which entries survive, and in which order, is stated by `Effects.FilterMembers` and `Effects.FilterIsSubsequence` |
| Effects.FilterMembers | src/OpenGraphImage.php:395-414 | an entry survives the filter iff it is configured and its name is one of the twelve accepted effects |
| Effects.FilterIsSubsequence | src/OpenGraphImage.php:410-414 | the surviving effects are a subsequence of the configured ones, in the caller's order |
| Effects.FilterAppend | src/OpenGraphImage.php:410-414 | filtering distributes over concatenation of configurations |
| Effects.FilterKeepsRecognised | src/OpenGraphImage.php:410-414 | a configuration that names only accepted effects passes the filter unchanged |
| Effects.Arguments | src/OpenGraphImage.php:416-423 | `null` gives no arguments, an array gives its elements in order, and any other value is the single argument |
| Effects.ArgumentShapes | src/OpenGraphImage.php:417-423 | apart from an empty array, `null` is the only setting that passes no argument |
| Effects.ArgumentsRoundTrip | src/OpenGraphImage.php:116-117 | writing an argument list as the configuration documents it (null, bare value, or array) and dispatching it gives back the same list |
| Export.Extension | src/OpenGraphImage.php:480-481 | the extension contains no `.`, is a suffix of the path, and is preceded by a `.` whenever it is shorter than the path |
| Export.ExtensionAfterDot | src/OpenGraphImage.php:480-481 | whatever the stem, the extension of `stem.ext` is `ext` |
| Export.Lower | src/OpenGraphImage.php:481 | the lower-cased extension has the same length; each of `A`..`Z` becomes the same letter in `a`..`z`, and every other character is unchanged |
| Export.SaveFormatIgnoresCase | src/OpenGraphImage.php:480-492 | for every stem, an extension that spells `png`, `jpg` or `webp` in any mix of letter case selects that format |
| Export.FormatFor | src/OpenGraphImage.php:483-495 | a selected format is the one whose extension was given; nothing is selected for any extension other than `png`, `jpg` and `webp` |
| Export.SaveFormat | src/OpenGraphImage.php:480-495 | the format selected for a path is the one whose extension equals the path's lower-cased extension; when none is selected, no format has that extension |
| Export.FormatForExtension | src/OpenGraphImage.php:483-495 | an extension selects a format iff it is that format's extension (`png`, `jpg`, `webp`) |
| Export.SaveFormatOfPath | src/OpenGraphImage.php:480-495 | `save` on `stem.ext` picks the format of the lower-cased `ext` |
| Export.SaveFormatRejectsTestPath | tests/OpenGraphImageTest.php:47-51 | the `.wrong` path selects no format |
| Export.SaveFormatOfTestPaths | tests/OpenGraphImageTest.php:59-80 | `.png`, `.jpg` and `.webp` select PNG, JPEG and WebP |
| Export.SaveFormatCaseAndSpelling | src/OpenGraphImage.php:481-492 | `.PNG` selects PNG because of lower-casing; `.jpeg` selects nothing |
| Export.SaveFormatWithoutDot | src/OpenGraphImage.php:480-481 | a path without a `.` is its own extension, so `image` selects nothing |
| Compositor.DriverFor | src/OpenGraphImage.php:348-359 | the name `imagick` selects Imagick and every other name selects GD |
| Compositor.FontFor | src/OpenGraphImage.php:317-319 | the configured font is used iff it is set and exists; otherwise the bundled Roboto |
| Compositor.RenderEvents | src/OpenGraphImage.php:328-336 | the calls of a render run through canvas, background, overlay, text and logo in that order, never going back to an earlier layer |
| Compositor.CanvasEvents | src/OpenGraphImage.php:341-346 | creating the image is exactly one canvas-layer call |
| Compositor.BackgroundEvents | src/OpenGraphImage.php:361-391 | the background step makes background-layer calls only, makes some iff the path is set and exists, and then starts with reading the photo and ends with centring it |
| Compositor.BackgroundReadsAndCentresOnce | src/OpenGraphImage.php:363-387 | the background step reads the photo exactly once, as its first call, and centres it exactly once, as its last |
| Compositor.OverlayEvents | src/OpenGraphImage.php:430-446 | the overlay step makes at most one overlay-layer call, and makes one iff 0 < alpha < 1 |
| Compositor.TextEvents | src/OpenGraphImage.php:448-461 | the text step is exactly one text-layer call |
| Compositor.LogoEvents | src/OpenGraphImage.php:463-476 | the logo step makes at most one logo-layer call, and makes one iff the logo path is set and exists |
| Compositor.WithBackground | src/OpenGraphImage.php:324-326 | a given background path replaces the stored one and no path leaves it; no other setting changes |
| Compositor.AfterOverlay | src/OpenGraphImage.php:432-435 | only the overlay colour may change; it stays as it is unless the overlay is drawn and it has length 4; when the overlay is drawn with a readable colour, the stored colour is `#` plus six hex digits |
| Compositor.AfterOverlayStoresDoubled | src/OpenGraphImage.php:432-435 | when the overlay is drawn, a `#rgb` colour is stored back as `#rrggbb`, each digit doubled in the case it was written in |
| Compositor.RenderLayers | src/OpenGraphImage.php:328-336 | the calls of each layer of a render are exactly those its step makes |
| Compositor.RenderCreatesCanvasFirst | src/OpenGraphImage.php:341-346 | the first call creates the configured canvas with the selected driver and the fill colour, and no other canvas is created |
| Compositor.RenderDrawsTextOnce | src/OpenGraphImage.php:448-461 | the text is drawn exactly once, at the configured point with the configured font, colour, size, alignments, line height and wrap width |
| Compositor.RenderOverlayCoversCanvas | src/OpenGraphImage.php:430-446 | every overlay rectangle starts at (0, 0), spans the canvas, carries the decoded colour and the alpha, and appears only when 0 < alpha < 1 |
| Compositor.RenderOverlayIffActive | src/OpenGraphImage.php:432 | an overlay rectangle is drawn iff 0 < alpha < 1 |
| Compositor.RenderBackgroundIffPresent | src/OpenGraphImage.php:363-388 | the photo is centred on the canvas iff its path is set and exists |
| Compositor.RenderReadsBackgroundSecond | src/OpenGraphImage.php:363-365 | a present photo is read right after the canvas is created; otherwise no background call is made and the canvas keeps its fill |
| Compositor.RenderReadsAndCentresBackgroundOnce | src/OpenGraphImage.php:363-387 | in a whole render, any read of the photo is call 1 and any centring is the last call of the background layer, so each happens at most once |
| Compositor.RenderScalesPerFillRule | src/OpenGraphImage.php:367-380 | a scale call is made iff the photo is present, fill is on and the fill rule asks for one; it is the third call and carries the rule's scale |
| Compositor.RenderAppliesRecognisedEffects | src/OpenGraphImage.php:383-385 | the effect calls of a render are exactly the recognised configured effects, in order, with dispatched arguments, and only when the photo is present |
| Compositor.RenderEffectsRecognised | src/OpenGraphImage.php:410-418 | no effect call names an effect outside the whitelist |
| Compositor.RenderLogoPlacement | src/OpenGraphImage.php:463-476 | every logo call places the configured file at the configured position, offsets and opacity, and is made only when the file exists |
| Compositor.RenderLogoLast | src/OpenGraphImage.php:465-472 | when the logo file exists, placing it is the last call of a render |
| Compositor.RenderLogoIffPresent | src/OpenGraphImage.php:465 | the logo is placed iff its path is set and the file exists |
| Compositor.OverlayColourSettles | src/OpenGraphImage.php:432-435 | after one render the stored colour is readable and settled: a second rewrite changes nothing, and a later render makes the same calls; colours not 4 characters long are never modified |
| Compositor.BackgroundOverridePersists | src/OpenGraphImage.php:324-326 | a background passed to `make` stays the stored path for later renders that pass none; passing none changes nothing |
| Compositor.DefaultRender | src/OpenGraphImage.php:51-287 | with the defaults and no files, a render is exactly: a 1200 x 630 GD canvas in #444444, a full-canvas black rectangle at alpha 0.35, and the text at (600, 315) in white 48 px bundled Roboto, centred |
| Compositor.OpenGraphImage.constructor | src/OpenGraphImage.php:289-320 | the object holds the given settings and the chosen font, and has made no calls and no image |
| Compositor.OpenGraphImage.Make | src/OpenGraphImage.php:322-339 | returns the same object; appends exactly the calls of one render with the given background, if any, and stores that background and the rewritten colour |
| Compositor.OpenGraphImage.CreateImage | src/OpenGraphImage.php:341-346 | appends the canvas call and records that the image exists |
| Compositor.OpenGraphImage.GetImageManager | src/OpenGraphImage.php:348-359 | the object's driver name selects Imagick iff it is `imagick` |
| Compositor.OpenGraphImage.DrawBackground | src/OpenGraphImage.php:361-391 | appends exactly the background layer's calls: read, scale per the fill rule, effects when configured, centre; nothing when the photo is missing |
| Compositor.OpenGraphImage.ApplyEffects | src/OpenGraphImage.php:393-428 | the loop appends one call per recognised effect, in configured order, with dispatched arguments |
| Compositor.OpenGraphImage.DispatchEffect | src/OpenGraphImage.php:417-423 | the three-way dispatch of one effect gives the call with exactly `Effects.Arguments` of its setting |
| Compositor.OpenGraphImage.DrawOverlay | src/OpenGraphImage.php:430-446 | appends the overlay rectangle when 0 < alpha < 1 and stores the expanded colour |
| Compositor.OpenGraphImage.DrawText | src/OpenGraphImage.php:448-461 | appends the one text call with the configured font settings |
| Compositor.OpenGraphImage.DrawLogo | src/OpenGraphImage.php:463-476 | appends the logo placement when the logo file exists, otherwise nothing |
| Compositor.OpenGraphImage.Save | src/OpenGraphImage.php:478-496 | an unsupported extension returns false with no call; a supported one, once the image exists, appends one encode of the matching format to the path and returns true; before any render it fails with no call |

## Left out

- The Intervention Image library itself is not modelled: pixels, decoding and encoding, effect arithmetic, glyph layout and wrapping, and how `place` resolves anchors, offsets and opacity. Each call is an opaque trace event; the library source is not part of this model.
- The real file system is not modelled. `file_exists` and the sizes the library reads are a `Disk` map given as a parameter.
- The ratio test at src/OpenGraphImage.php:375 compares PHP floats. The model compares exact ratios (`bw * ih <= iw * bh`), so float-rounding ties are not modelled.
- `overlayAlpha` and `textLineHeight` are `real` values that are passed through. No blending is computed.
- The `array_merge` of the constructor (src/OpenGraphImage.php:291) is not modelled; the constructor takes the merged settings as one `Config`.
- Compositor.OpenGraphImage.Make, Compositor.OpenGraphImage.DrawOverlay: require the overlay colour to be `#` plus six hex digits once expanded whenever the overlay is drawn. `sscanf`'s partial results on a malformed colour are not modelled.
- Compositor.OpenGraphImage.Save: before any `make`, PHP raises an error on the uninitialised image property. The model returns `Failure(ImageNotCreated)` instead of modelling PHP errors.
- Compositor.OpenGraphImage.Save: whether the selected driver can encode WebP is not modelled. The GD case the tests expect to return `false` (tests/OpenGraphImageTest.php:71-75) depends on the library's capability, not on this code.
- The text, colour and position strings are passed to the library unchecked, so whatever the library does with a value it does not accept is not modelled.
- Compositor.OpenGraphImage.Make, Compositor.OpenGraphImage.DrawBackground, Compositor.OpenGraphImage.DrawLogo: every path in the `Disk` is taken to be an image the library can read. In the code, `file_exists` also accepts a directory or a non-image file. `read` (src/OpenGraphImage.php:365) or `place` (src/OpenGraphImage.php:466) then throws and aborts `make` after the canvas was created. In the model a render always completes. Likewise, a non-font file passes the check at src/OpenGraphImage.php:317 and becomes the font.
- Image sides are positive integers (`Dimension`). A zero photo or canvas height divides by zero at src/OpenGraphImage.php:371-372 when fill is on and a photo is present; that error is not modelled, and neither are zero widths or negative sizes.
- Colour.Expand: strings are sequences of characters, while `strlen` counts bytes. A 4-byte string with multi-byte characters is not modelled.
- Argument spreading with string keys, which PHP turns into named arguments, is modelled as positional spreading.
- The MIME checks and the virtual file system of the tests are not modelled.
