/** The `OpenGraphImage` compositor (src/OpenGraphImage.php): its settings, the
    layer-by-layer render `make` performs and `save`. The layers are described
    first as functions from the settings to the calls made on the raster
    library; the class below performs them step by step on its fields and is
    proved to make exactly those calls. */
module Compositor {
  import opened Wrappers
  import Colour
  import Geometry
  import Effects
  import Export
  import opened Raster

  /** A canvas or image side in pixels. */
  type Dimension = n: int | n > 0 witness 1

  /** The pixel size the library reads for an image file. */
  datatype Dims = Dims(width: Dimension, height: Dimension)

  /** The file system as `file_exists` sees it: a path is present exactly when
      the file exists; its value is the size of the image stored there. The
      size of an entry that is not an image, such as the font file, is never
      read. */
  type Disk = map<string, Dims>

  /** The configuration keys the constructor reads, one field each. */
  datatype Config = Config(
    driver: string,
    imageWidth: Dimension,
    imageHeight: Dimension,
    backgroundColor: string,
    backgroundPath: Option<string>,
    backgroundFill: bool,
    backgroundEffects: seq<Effects.Entry>,
    overlayColor: string,
    overlayAlpha: real,
    logoPath: Option<string>,
    logoPosition: string,
    logoPosX: int,
    logoPosY: int,
    logoOpacity: int,
    textPosX: int,
    textPosY: int,
    textHorizontalAlign: string,
    textVerticalAlign: string,
    textWrapWidth: int,
    textLineHeight: real,
    textColor: string,
    textFontSize: int,
    textFontPath: Option<string>)

  /** The defaults of src/OpenGraphImage.php:51-287. */
  const Defaults: Config := Config(
    "gd", 1200, 630, "#444444", None, true, [], "#000000", 0.35,
    None, "bottom-right", 100, 50, 100,
    600, 315, "center", "middle", 1000, 1.5, "#ffffff", 48, None)

  /** The bundled Roboto Regular font, relative to the package root. */
  const BundledFont: string := "fonts/Roboto/Roboto-Regular.ttf"

  /** `getImageManager`: `imagick` selects Imagick, every other name GD. */
  function DriverFor(name: string): (d: Driver)
    ensures d == Imagick <==> name == "imagick"
    ensures d == Gd <==> name != "imagick"
  {
    if name == "imagick" then Imagick else Gd
  }

  /** The font the constructor settles on: the configured font file when it is
      given and exists, the bundled font otherwise. */
  function FontFor(fontPath: Option<string>, disk: Disk): (f: string)
    ensures fontPath.Some? && fontPath.value in disk ==> f == fontPath.value
    ensures !(fontPath.Some? && fontPath.value in disk) ==> f == BundledFont
  {
    if fontPath.Some? && fontPath.value in disk then fontPath.value else BundledFont
  }

  /** `!is_null($path) && file_exists($path)`. */
  predicate Present(path: Option<string>, disk: Disk) {
    path.Some? && path.value in disk
  }

  /** The overlay is drawn only for an alpha strictly between 0 and 1. */
  predicate OverlayActive(c: Config) {
    0.0 < c.overlayAlpha < 1.0
  }

  /** What decoding the overlay colour needs: `#` and six hex digits once the
      shorthand has been expanded. */
  predicate OverlayColourReadable(c: Config) {
    OverlayActive(c) ==> Colour.IsLongHex(Colour.Expand(c.overlayColor))
  }

  /** `make`'s first step: a given background path replaces the stored one. */
  function WithBackground(c: Config, background: Option<string>): (r: Config)
    ensures r.backgroundPath == if background.Some? then background else c.backgroundPath
    ensures r == c.(backgroundPath := r.backgroundPath)
  {
    if background.Some? then c.(backgroundPath := background) else c
  }

  /** `drawOverlay`'s write-back: when the overlay is drawn, the colour is stored expanded. */
  function AfterOverlay(c: Config): (r: Config)
    ensures r == c.(overlayColor := r.overlayColor)
    ensures !OverlayActive(c) || |c.overlayColor| != 4 ==> r == c
    ensures OverlayColourReadable(c) && OverlayActive(c) ==> Colour.IsLongHex(r.overlayColor)
  {
    if OverlayActive(c) then c.(overlayColor := Colour.Expand(c.overlayColor)) else c
  }

  /** The write-back stores the `#rgb` shorthand with each digit doubled, in the
      case it was written in. */
  lemma AfterOverlayStoresDoubled(c: Config)
    requires OverlayActive(c) && Colour.IsShortHex(c.overlayColor)
    ensures var s := c.overlayColor;
      AfterOverlay(c).overlayColor == ['#', s[1], s[1], s[2], s[2], s[3], s[3]]
  {
    Colour.ExpandShort(c.overlayColor);
  }

  /** `createImage`: one canvas of the configured size filled with the background colour. */
  function CanvasEvents(c: Config): (r: seq<Event>)
    ensures |r| == 1 && AllInLayer(r, 0)
  {
    [CreateCanvas(DriverFor(c.driver), c.imageWidth, c.imageHeight, c.backgroundColor)]
  }

  /** One library call per effect, with the effect's arguments dispatched. */
  function EffectEvents(es: seq<Effects.Entry>): (r: seq<Event>)
    ensures |r| == |es|
    ensures forall i :: 0 <= i < |es| ==> r[i] == ApplyEffect(es[i].name, Effects.Arguments(es[i].setting))
  {
    seq(|es|, i requires 0 <= i < |es| => ApplyEffect(es[i].name, Effects.Arguments(es[i].setting)))
  }

  /** One more effect adds its one call at the end. */
  lemma EffectEventsSnoc(es: seq<Effects.Entry>, e: Effects.Entry)
    ensures EffectEvents(es + [e]) == EffectEvents(es) + [ApplyEffect(e.name, Effects.Arguments(e.setting))]
  {
    var l := EffectEvents(es + [e]);
    var r := EffectEvents(es) + [ApplyEffect(e.name, Effects.Arguments(e.setting))];
    forall i | 0 <= i < |l| ensures l[i] == r[i] {
      if i < |es| {
        assert (es + [e])[i] == es[i];
      } else {
        assert (es + [e])[i] == e;
      }
    }
  }

  /** `drawBackground`: read the photo, scale it when fill is on, run the effect
      chain when one is configured, and centre it on the canvas. */
  function BackgroundEvents(c: Config, disk: Disk): (r: seq<Event>)
    ensures AllInLayer(r, 1)
    ensures r != [] <==> Present(c.backgroundPath, disk)
    ensures r != [] ==>
      r[0] == ReadBackground(DriverFor(c.driver), c.backgroundPath.value) && r[|r| - 1] == PlaceBackgroundCentred
  {
    if Present(c.backgroundPath, disk) then
      var path := c.backgroundPath.value;
      var scale := Geometry.FillScale(disk[path].width, disk[path].height, c.imageWidth, c.imageHeight);
      [ReadBackground(DriverFor(c.driver), path)]
      + (if c.backgroundFill && scale.Some? then [ScaleBackground(scale.value)] else [])
      + (if |c.backgroundEffects| > 0 then EffectEvents(Effects.Filter(c.backgroundEffects)) else [])
      + [PlaceBackgroundCentred]
    else []
  }

  /** `drawOverlay`: a rectangle over the whole canvas in the decoded colour and the alpha. */
  function OverlayEvents(c: Config): (r: seq<Event>)
    requires OverlayColourReadable(c)
    ensures AllInLayer(r, 2) && |r| <= 1
    ensures r != [] <==> OverlayActive(c)
  {
    if OverlayActive(c) then
      var rgb := Colour.Parse(Colour.Expand(c.overlayColor));
      [DrawRectangle(0, 0, c.imageWidth, c.imageHeight, Rgba(rgb.red, rgb.green, rgb.blue, c.overlayAlpha))]
    else []
  }

  /** The font settings of `drawText`. */
  function TextFont(c: Config, font: string): (f: Font) {
    Font(font, c.textColor, c.textFontSize, c.textHorizontalAlign,
         c.textVerticalAlign, c.textLineHeight, c.textWrapWidth)
  }

  /** `drawText`: the text at the configured point with the configured font settings. */
  function TextEvents(c: Config, font: string, text: string): (r: seq<Event>)
    ensures |r| == 1 && AllInLayer(r, 3)
  {
    [DrawText(text, c.textPosX, c.textPosY, TextFont(c, font))]
  }

  /** `drawLogo`: the logo placed at its position, offsets and opacity when it exists. */
  function LogoEvents(c: Config, disk: Disk): (r: seq<Event>)
    ensures AllInLayer(r, 4) && |r| <= 1
    ensures r != [] <==> Present(c.logoPath, disk)
  {
    if Present(c.logoPath, disk) then
      [PlaceLogo(c.logoPath.value, c.logoPosition, c.logoPosX, c.logoPosY, c.logoOpacity)]
    else []
  }

  /** Every call one render makes, in the order `make` makes them. */
  function RenderEvents(c: Config, font: string, text: string, disk: Disk): (r: seq<Event>)
    requires OverlayColourReadable(c)
    ensures InLayerOrder(r)
  {
    var s0 := CanvasEvents(c);
    var s1 := s0 + BackgroundEvents(c, disk);
    var s2 := s1 + OverlayEvents(c);
    var s3 := s2 + TextEvents(c, font, text);
    AppendLayer(s0, BackgroundEvents(c, disk), 1);
    AppendLayer(s1, OverlayEvents(c), 2);
    AppendLayer(s2, TextEvents(c, font, text), 3);
    AppendLayer(s3, LogoEvents(c, disk), 4);
    s3 + LogoEvents(c, disk)
  }

  // ---------------------------------------------------------------------------
  // What a render does

  /** The calls of each layer of a render are exactly those of the step that draws it. */
  lemma RenderLayers(c: Config, font: string, text: string, disk: Disk)
    requires OverlayColourReadable(c)
    ensures var r := RenderEvents(c, font, text, disk);
      OfLayer(r, 0) == CanvasEvents(c) && OfLayer(r, 1) == BackgroundEvents(c, disk)
      && OfLayer(r, 2) == OverlayEvents(c) && OfLayer(r, 3) == TextEvents(c, font, text)
      && OfLayer(r, 4) == LogoEvents(c, disk)
  {
    LayeredParts(CanvasEvents(c), BackgroundEvents(c, disk), OverlayEvents(c),
                 TextEvents(c, font, text), LogoEvents(c, disk));
  }

  /** A render begins by creating the configured canvas, and creates no other. */
  lemma RenderCreatesCanvasFirst(c: Config, font: string, text: string, disk: Disk)
    requires OverlayColourReadable(c)
    ensures var r := RenderEvents(c, font, text, disk);
      |r| > 0 && r[0] == CreateCanvas(DriverFor(c.driver), c.imageWidth, c.imageHeight, c.backgroundColor)
    ensures OfLayer(RenderEvents(c, font, text, disk), 0) ==
      [CreateCanvas(DriverFor(c.driver), c.imageWidth, c.imageHeight, c.backgroundColor)]
  {
    RenderLayers(c, font, text, disk);
  }

  /** The text is drawn exactly once, at the configured point with the configured font settings. */
  lemma RenderDrawsTextOnce(c: Config, font: string, text: string, disk: Disk)
    requires OverlayColourReadable(c)
    ensures OfLayer(RenderEvents(c, font, text, disk), 3) ==
      [DrawText(text, c.textPosX, c.textPosY, TextFont(c, font))]
    ensures var r := RenderEvents(c, font, text, disk);
      forall i :: 0 <= i < |r| && r[i].DrawText? ==> r[i] == DrawText(text, c.textPosX, c.textPosY, TextFont(c, font))
  {
    var r := RenderEvents(c, font, text, disk);
    RenderLayers(c, font, text, disk);
    forall i | 0 <= i < |r| && r[i].DrawText?
      ensures r[i] in TextEvents(c, font, text)
    {
      FromPart(CanvasEvents(c), BackgroundEvents(c, disk), OverlayEvents(c),
               TextEvents(c, font, text), LogoEvents(c, disk), i);
    }
  }

  /** Any overlay rectangle of a render covers the whole canvas from (0, 0), in
      the decoded colour with the configured alpha, and is drawn only for an
      alpha strictly between 0 and 1. */
  lemma RenderOverlayCoversCanvas(c: Config, font: string, text: string, disk: Disk)
    requires OverlayColourReadable(c)
    ensures var r := RenderEvents(c, font, text, disk);
      forall i :: 0 <= i < |r| && r[i].DrawRectangle? ==>
        OverlayActive(c)
        && var rgb := Colour.Parse(Colour.Expand(c.overlayColor));
           r[i] == DrawRectangle(0, 0, c.imageWidth, c.imageHeight, Rgba(rgb.red, rgb.green, rgb.blue, c.overlayAlpha))
  {
    var r := RenderEvents(c, font, text, disk);
    forall i | 0 <= i < |r| && r[i].DrawRectangle?
      ensures r[i] in OverlayEvents(c)
    {
      FromPart(CanvasEvents(c), BackgroundEvents(c, disk), OverlayEvents(c),
               TextEvents(c, font, text), LogoEvents(c, disk), i);
    }
  }

  /** The overlay rectangle is drawn iff the alpha lies strictly between 0 and 1. */
  lemma RenderOverlayIffActive(c: Config, font: string, text: string, disk: Disk)
    requires OverlayColourReadable(c)
    ensures var r := RenderEvents(c, font, text, disk);
      (exists i :: 0 <= i < |r| && r[i].DrawRectangle?) <==> OverlayActive(c)
  {
    var r := RenderEvents(c, font, text, disk);
    RenderOverlayCoversCanvas(c, font, text, disk);
    if OverlayActive(c) {
      RenderLayers(c, font, text, disk);
      OfLayerWithin(r, 2, OverlayEvents(c)[0]);
    }
  }

  /** The background photo is centred iff its path is set and exists. */
  lemma RenderBackgroundIffPresent(c: Config, font: string, text: string, disk: Disk)
    requires OverlayColourReadable(c)
    ensures PlaceBackgroundCentred in RenderEvents(c, font, text, disk) <==> Present(c.backgroundPath, disk)
  {
    var r := RenderEvents(c, font, text, disk);
    var bg := BackgroundEvents(c, disk);
    if Present(c.backgroundPath, disk) {
      LayerOnePosition(CanvasEvents(c), bg, OverlayEvents(c), TextEvents(c, font, text), LogoEvents(c, disk), |bg| - 1);
      assert r[|bg|] == PlaceBackgroundCentred;
    }
    if PlaceBackgroundCentred in r {
      var i :| 0 <= i < |r| && r[i] == PlaceBackgroundCentred;
      LayerOnePosition(CanvasEvents(c), bg, OverlayEvents(c), TextEvents(c, font, text), LogoEvents(c, disk), i);
    }
  }

  /** When present, the background photo is read right after the canvas is
      created; otherwise no background call is made and the canvas keeps its
      solid fill. */
  lemma RenderReadsBackgroundSecond(c: Config, font: string, text: string, disk: Disk)
    requires OverlayColourReadable(c)
    ensures var r := RenderEvents(c, font, text, disk);
      Present(c.backgroundPath, disk) ==> |r| > 1 && r[1] == ReadBackground(DriverFor(c.driver), c.backgroundPath.value)
    ensures var r := RenderEvents(c, font, text, disk);
      !Present(c.backgroundPath, disk) ==> forall i :: 0 <= i < |r| ==> Layer(r[i]) != 1
  {
    var r := RenderEvents(c, font, text, disk);
    var bg := BackgroundEvents(c, disk);
    LayerOnePosition(CanvasEvents(c), bg, OverlayEvents(c), TextEvents(c, font, text), LogoEvents(c, disk), 0);
    forall i | 0 <= i < |r| && Layer(r[i]) == 1
      ensures |bg| > 0
    {
      LayerOnePosition(CanvasEvents(c), bg, OverlayEvents(c), TextEvents(c, font, text), LogoEvents(c, disk), i);
    }
  }

  /** The effect calls of the background layer. */
  lemma BackgroundEffects(c: Config, disk: Disk)
    ensures AppliedEffects(BackgroundEvents(c, disk)) ==
      if Present(c.backgroundPath, disk) then EffectEvents(Effects.Filter(c.backgroundEffects)) else []
  {
    var bg := BackgroundEvents(c, disk);
    if Present(c.backgroundPath, disk) {
      var path := c.backgroundPath.value;
      var scale := Geometry.FillScale(disk[path].width, disk[path].height, c.imageWidth, c.imageHeight);
      var read := [ReadBackground(DriverFor(c.driver), path)];
      var sc := if c.backgroundFill && scale.Some? then [ScaleBackground(scale.value)] else [];
      var es := Effects.Filter(c.backgroundEffects);
      var ef := if |c.backgroundEffects| > 0 then EffectEvents(es) else [];
      assert bg == read + sc + ef + [PlaceBackgroundCentred];
      if |c.backgroundEffects| == 0 {
        assert es == [];
      }
      AppliedEffectsAppend(read + sc + ef, [PlaceBackgroundCentred]);
      AppliedEffectsAppend(read + sc, ef);
      AppliedEffectsAppend(read, sc);
      AppliedEffectsOfOthers(read);
      AppliedEffectsOfOthers(sc);
      AppliedEffectsOfOthers([PlaceBackgroundCentred]);
      AppliedEffectsOfEffects(ef);
    } else {
      AppliedEffectsOfOthers(bg);
    }
  }

  /** The effect calls of a render are exactly the recognised configured effects,
      in their configured order with their dispatched arguments, and only when the
      background photo is present. */
  lemma RenderAppliesRecognisedEffects(c: Config, font: string, text: string, disk: Disk)
    requires OverlayColourReadable(c)
    ensures AppliedEffects(RenderEvents(c, font, text, disk)) ==
      if Present(c.backgroundPath, disk) then EffectEvents(Effects.Filter(c.backgroundEffects)) else []
  {
    AppliedEffectsOfLayered(CanvasEvents(c), BackgroundEvents(c, disk), OverlayEvents(c),
                            TextEvents(c, font, text), LogoEvents(c, disk));
    BackgroundEffects(c, disk);
  }

  /** No call of a render names an effect outside the twelve recognised ones. */
  lemma RenderEffectsRecognised(c: Config, font: string, text: string, disk: Disk)
    requires OverlayColourReadable(c)
    ensures var r := RenderEvents(c, font, text, disk);
      forall i :: 0 <= i < |r| && r[i].ApplyEffect? ==> Effects.Recognised(r[i].name)
  {
    var r := RenderEvents(c, font, text, disk);
    var es := Effects.Filter(c.backgroundEffects);
    RenderAppliesRecognisedEffects(c, font, text, disk);
    Effects.FilterMembers(c.backgroundEffects);
    forall i | 0 <= i < |r| && r[i].ApplyEffect?
      ensures Effects.Recognised(r[i].name)
    {
      AppliedEffectsContains(r, i);
      var j :| 0 <= j < |EffectEvents(es)| && EffectEvents(es)[j] == r[i];
      assert es[j] in es;
    }
  }

  /** In a background layer shaped read, optional scale, effects, centre, a
      scale can only be the second call. */
  lemma ScaleSlot(head: Event, sc: seq<Event>, ef: seq<Event>, j: int)
    requires !head.ScaleBackground? && |sc| <= 1
    requires forall k :: 0 <= k < |ef| ==> ef[k].ApplyEffect?
    ensures var bg := [head] + sc + ef + [PlaceBackgroundCentred];
      0 <= j < |bg| ==>
        (bg[j].ScaleBackground? <==> j == 1 && sc != [] && sc[0].ScaleBackground?)
        && (bg[j].ScaleBackground? ==> bg[j] == sc[0])
  {
    var bg := [head] + sc + ef + [PlaceBackgroundCentred];
    if 0 <= j < |bg| {
      if j == 0 {
      } else if j < 1 + |sc| {
        assert bg[j] == sc[j - 1];
      } else if j < 1 + |sc| + |ef| {
        assert bg[j] == ef[j - 1 - |sc|];
      } else {
        assert bg[j] == PlaceBackgroundCentred;
      }
    }
  }

  /** In a background layer shaped read, scales, effects, centre, the read is
      only the first call and the centring only the last. */
  lemma ReadAndCentreSlots(head: Event, sc: seq<Event>, ef: seq<Event>, j: int)
    requires head.ReadBackground?
    requires forall k :: 0 <= k < |sc| ==> sc[k].ScaleBackground?
    requires forall k :: 0 <= k < |ef| ==> ef[k].ApplyEffect?
    ensures var bg := [head] + sc + ef + [PlaceBackgroundCentred];
      0 <= j < |bg| ==>
        (bg[j].ReadBackground? <==> j == 0) && (bg[j].PlaceBackgroundCentred? <==> j == |bg| - 1)
  {
    var bg := [head] + sc + ef + [PlaceBackgroundCentred];
    if 0 <= j < |bg| {
      if j == 0 {
      } else if j < 1 + |sc| {
        assert bg[j] == sc[j - 1];
      } else if j < 1 + |sc| + |ef| {
        assert bg[j] == ef[j - 1 - |sc|];
      } else {
        assert bg[j] == PlaceBackgroundCentred;
      }
    }
  }

  /** The background layer reads the photo once, as its first call, and centres
      it once, as its last. */
  lemma BackgroundReadsAndCentresOnce(c: Config, disk: Disk)
    ensures var bg := BackgroundEvents(c, disk);
      forall j :: 0 <= j < |bg| ==>
        (bg[j].ReadBackground? <==> j == 0) && (bg[j].PlaceBackgroundCentred? <==> j == |bg| - 1)
  {
    var bg := BackgroundEvents(c, disk);
    if Present(c.backgroundPath, disk) {
      var path := c.backgroundPath.value;
      var scale := Geometry.FillScale(disk[path].width, disk[path].height, c.imageWidth, c.imageHeight);
      var head := ReadBackground(DriverFor(c.driver), path);
      var sc := if c.backgroundFill && scale.Some? then [ScaleBackground(scale.value)] else [];
      var ef := if |c.backgroundEffects| > 0 then EffectEvents(Effects.Filter(c.backgroundEffects)) else [];
      assert bg == [head] + sc + ef + [PlaceBackgroundCentred];
      forall j | 0 <= j < |bg|
        ensures bg[j].ReadBackground? <==> j == 0
        ensures bg[j].PlaceBackgroundCentred? <==> j == |bg| - 1
      {
        ReadAndCentreSlots(head, sc, ef, j);
      }
    }
  }

  /** A render reads the background photo at most once, as call 1, and centres
      it at most once, as the last call of the background layer. */
  lemma RenderReadsAndCentresBackgroundOnce(c: Config, font: string, text: string, disk: Disk)
    requires OverlayColourReadable(c)
    ensures var r := RenderEvents(c, font, text, disk);
      forall i :: 0 <= i < |r| && r[i].ReadBackground? ==> i == 1
    ensures var r := RenderEvents(c, font, text, disk);
      forall i :: 0 <= i < |r| && r[i].PlaceBackgroundCentred? ==> i == |BackgroundEvents(c, disk)|
  {
    var r := RenderEvents(c, font, text, disk);
    var bg := BackgroundEvents(c, disk);
    BackgroundReadsAndCentresOnce(c, disk);
    forall i | 0 <= i < |r| && (r[i].ReadBackground? || r[i].PlaceBackgroundCentred?)
      ensures r[i].ReadBackground? ==> i == 1
      ensures r[i].PlaceBackgroundCentred? ==> i == |bg|
    {
      LayerOnePosition(CanvasEvents(c), bg, OverlayEvents(c), TextEvents(c, font, text), LogoEvents(c, disk), i);
    }
  }

  /** Where the background layer scales the photo: only as its second call. */
  lemma BackgroundScale(c: Config, disk: Disk)
    requires Present(c.backgroundPath, disk)
    ensures var bg := BackgroundEvents(c, disk);
      var path := c.backgroundPath.value;
      var scale := Geometry.FillScale(disk[path].width, disk[path].height, c.imageWidth, c.imageHeight);
      forall j :: 0 <= j < |bg| ==>
        (bg[j].ScaleBackground? <==> c.backgroundFill && scale.Some? && j == 1)
        && (bg[j].ScaleBackground? ==> bg[j].scale == scale.value)
  {
    var bg := BackgroundEvents(c, disk);
    var path := c.backgroundPath.value;
    var scale := Geometry.FillScale(disk[path].width, disk[path].height, c.imageWidth, c.imageHeight);
    var head := ReadBackground(DriverFor(c.driver), path);
    var sc := if c.backgroundFill && scale.Some? then [ScaleBackground(scale.value)] else [];
    var ef := if |c.backgroundEffects| > 0 then EffectEvents(Effects.Filter(c.backgroundEffects)) else [];
    assert bg == [head] + sc + ef + [PlaceBackgroundCentred];
    forall j | 0 <= j < |bg|
      ensures bg[j].ScaleBackground? <==> c.backgroundFill && scale.Some? && j == 1
      ensures bg[j].ScaleBackground? ==> bg[j].scale == scale.value
    {
      ScaleSlot(head, sc, ef, j);
    }
  }

  /** The photo is scaled iff it is present, fill is on and the fill rule asks for
      a scale; the scale is then the one the rule picks, right after the read. */
  lemma RenderScalesPerFillRule(c: Config, font: string, text: string, disk: Disk)
    requires OverlayColourReadable(c)
    ensures var r := RenderEvents(c, font, text, disk);
      (exists i :: 0 <= i < |r| && r[i].ScaleBackground?) <==>
        Present(c.backgroundPath, disk) && c.backgroundFill
        && Geometry.FillScale(disk[c.backgroundPath.value].width, disk[c.backgroundPath.value].height,
                              c.imageWidth, c.imageHeight).Some?
    ensures var r := RenderEvents(c, font, text, disk);
      forall i :: 0 <= i < |r| && r[i].ScaleBackground? ==>
        i == 2 && r[i].scale == Geometry.FillScale(disk[c.backgroundPath.value].width,
                                                   disk[c.backgroundPath.value].height,
                                                   c.imageWidth, c.imageHeight).value
  {
    var r := RenderEvents(c, font, text, disk);
    var bg := BackgroundEvents(c, disk);
    forall i | 0 <= i < |r| && r[i].ScaleBackground?
      ensures Present(c.backgroundPath, disk) && i == 2 && r[i] == bg[1]
    {
      LayerOnePosition(CanvasEvents(c), bg, OverlayEvents(c), TextEvents(c, font, text), LogoEvents(c, disk), i);
      BackgroundScale(c, disk);
    }
    if Present(c.backgroundPath, disk) {
      BackgroundScale(c, disk);
      LayerOnePosition(CanvasEvents(c), bg, OverlayEvents(c), TextEvents(c, font, text), LogoEvents(c, disk), 1);
    }
  }

  /** Any logo call of a render places the configured logo file at the
      configured position, offsets and opacity, and only when that file exists. */
  lemma RenderLogoPlacement(c: Config, font: string, text: string, disk: Disk)
    requires OverlayColourReadable(c)
    ensures var r := RenderEvents(c, font, text, disk);
      forall i :: 0 <= i < |r| && r[i].PlaceLogo? ==>
        Present(c.logoPath, disk)
        && r[i] == PlaceLogo(c.logoPath.value, c.logoPosition, c.logoPosX, c.logoPosY, c.logoOpacity)
  {
    var r := RenderEvents(c, font, text, disk);
    forall i | 0 <= i < |r| && r[i].PlaceLogo?
      ensures r[i] in LogoEvents(c, disk)
    {
      FromPart(CanvasEvents(c), BackgroundEvents(c, disk), OverlayEvents(c),
               TextEvents(c, font, text), LogoEvents(c, disk), i);
    }
  }

  /** When the logo file exists, placing it is the very last call of a render. */
  lemma RenderLogoLast(c: Config, font: string, text: string, disk: Disk)
    requires OverlayColourReadable(c)
    ensures var r := RenderEvents(c, font, text, disk);
      Present(c.logoPath, disk) ==>
        r[|r| - 1] == PlaceLogo(c.logoPath.value, c.logoPosition, c.logoPosX, c.logoPosY, c.logoOpacity)
  {
    var pre := CanvasEvents(c) + BackgroundEvents(c, disk) + OverlayEvents(c) + TextEvents(c, font, text);
    var logo := LogoEvents(c, disk);
    assert RenderEvents(c, font, text, disk) == pre + logo;
    if Present(c.logoPath, disk) {
      assert (pre + logo)[|pre|] == logo[0];
    }
  }

  /** The logo is placed iff its path is set and the file exists. */
  lemma RenderLogoIffPresent(c: Config, font: string, text: string, disk: Disk)
    requires OverlayColourReadable(c)
    ensures var r := RenderEvents(c, font, text, disk);
      (exists i :: 0 <= i < |r| && r[i].PlaceLogo?) <==> Present(c.logoPath, disk)
  {
    var r := RenderEvents(c, font, text, disk);
    RenderLogoPlacement(c, font, text, disk);
    RenderLogoLast(c, font, text, disk);
    if Present(c.logoPath, disk) {
      assert r[|r| - 1].PlaceLogo?;
    }
  }

  /** The colour rewrite settles after one render: the stored colour no longer
      changes, and a later render with the stored colour draws the same calls. */
  lemma OverlayColourSettles(c: Config, font: string, text: string, disk: Disk)
    requires OverlayColourReadable(c)
    ensures OverlayColourReadable(AfterOverlay(c))
    ensures AfterOverlay(AfterOverlay(c)) == AfterOverlay(c)
    ensures RenderEvents(AfterOverlay(c), font, text, disk) == RenderEvents(c, font, text, disk)
    ensures OverlayActive(c) ==> |AfterOverlay(c).overlayColor| == 7
    ensures |c.overlayColor| != 4 ==> AfterOverlay(c) == c
  {
    Colour.ExpandIdempotent(c.overlayColor);
  }

  lemma AfterOverlayKeepsLaterLayers(c: Config, font: string, text: string, disk: Disk)
    ensures TextEvents(AfterOverlay(c), font, text) == TextEvents(c, font, text)
    ensures LogoEvents(AfterOverlay(c), disk) == LogoEvents(c, disk)
  {
  }

  /** A background passed to `make` is kept for later renders that pass none. */
  lemma BackgroundOverridePersists(c: Config, path: string)
    ensures WithBackground(AfterOverlay(WithBackground(c, Some(path))), None).backgroundPath == Some(path)
    ensures WithBackground(c, None) == c
  {
  }

  /** With the defaults and no files: a 1200 x 630 canvas filled with #444444,
      a full-canvas black rectangle at alpha 0.35, and the text centred at
      (600, 315) in white 48 px Roboto; nothing else. */
  lemma DefaultRender(text: string)
    ensures OverlayColourReadable(Defaults)
    ensures RenderEvents(Defaults, FontFor(None, map[]), text, map[]) == [
      CreateCanvas(Gd, 1200, 630, "#444444"),
      DrawRectangle(0, 0, 1200, 630, Rgba(0, 0, 0, 0.35)),
      DrawText(text, 600, 315, Font(BundledFont, "#ffffff", 48, "center", "middle", 1.5, 1000))]
  {
    assert Colour.Expand("#000000") == "#000000";
    assert Colour.IsLongHex("#000000");
    assert Colour.Parse("#000000") == Colour.Rgb(0, 0, 0);
  }

  // ---------------------------------------------------------------------------
  // The compositor object

  datatype SaveError = ImageNotCreated

  class OpenGraphImage {
    const driver: string
    const imageWidth: Dimension
    const imageHeight: Dimension
    const backgroundColor: string
    var backgroundPath: Option<string>
    const backgroundFill: bool
    const backgroundEffects: seq<Effects.Entry>
    var overlayColor: string
    const overlayAlpha: real
    const logoPath: Option<string>
    const logoPosition: string
    const logoPosX: int
    const logoPosY: int
    const logoOpacity: int
    const textPosX: int
    const textPosY: int
    const textHorizontalAlign: string
    const textVerticalAlign: string
    const textWrapWidth: int
    const textLineHeight: real
    const textColor: string
    const textFontSize: int
    const textFontPath: Option<string>
    /** The font file `drawText` uses. */
    const font: string

    /** Every call made on the raster library so far, in order. */
    var calls: seq<Event>
    /** Whether `createImage` has given `$this->image` a value. */
    var imageCreated: bool

    /** The current settings as one value. */
    function Settings(): (c: Config)
      reads this`backgroundPath, this`overlayColor
    {
      Config(driver, imageWidth, imageHeight, backgroundColor, backgroundPath,
             backgroundFill, backgroundEffects, overlayColor, overlayAlpha,
             logoPath, logoPosition, logoPosX, logoPosY, logoOpacity,
             textPosX, textPosY, textHorizontalAlign, textVerticalAlign,
             textWrapWidth, textLineHeight, textColor, textFontSize, textFontPath)
    }

    /** Stores the configuration and picks the font. */
    constructor (config: Config, disk: Disk)
      ensures Settings() == config
      ensures font == FontFor(config.textFontPath, disk)
      ensures calls == [] && !imageCreated
    {
      driver := config.driver;
      imageWidth := config.imageWidth;
      imageHeight := config.imageHeight;
      backgroundColor := config.backgroundColor;
      backgroundPath := config.backgroundPath;
      backgroundFill := config.backgroundFill;
      backgroundEffects := config.backgroundEffects;
      overlayColor := config.overlayColor;
      overlayAlpha := config.overlayAlpha;
      logoPath := config.logoPath;
      logoPosition := config.logoPosition;
      logoPosX := config.logoPosX;
      logoPosY := config.logoPosY;
      logoOpacity := config.logoOpacity;
      textHorizontalAlign := config.textHorizontalAlign;
      textVerticalAlign := config.textVerticalAlign;
      textWrapWidth := config.textWrapWidth;
      textPosX := config.textPosX;
      textPosY := config.textPosY;
      textLineHeight := config.textLineHeight;
      textColor := config.textColor;
      textFontSize := config.textFontSize;
      textFontPath := config.textFontPath;
      var chosen := BundledFont;
      if config.textFontPath.Some? && config.textFontPath.value in disk {
        chosen := config.textFontPath.value;
      }
      font := chosen;
      calls := [];
      imageCreated := false;
    }

    /** Renders the card: canvas, background, overlay, text, logo. */
    method Make(text: string, background: Option<string>, disk: Disk) returns (r: OpenGraphImage)
      requires OverlayColourReadable(Settings())
      modifies this
      ensures r == this
      ensures calls == old(calls) + RenderEvents(WithBackground(old(Settings()), background), font, text, disk)
      ensures Settings() == AfterOverlay(WithBackground(old(Settings()), background))
      ensures imageCreated
    {
      if background.Some? {
        backgroundPath := background;
      }
      ghost var c := Settings();
      assert c == WithBackground(old(Settings()), background);
      ghost var start := calls;
      CreateImage();
      assert Settings() == c;
      DrawBackground(disk);
      Assoc(start, CanvasEvents(c), BackgroundEvents(c, disk));
      ghost var done := CanvasEvents(c) + BackgroundEvents(c, disk);
      DrawOverlay();
      Assoc(start, done, OverlayEvents(c));
      done := done + OverlayEvents(c);
      AfterOverlayKeepsLaterLayers(c, font, text, disk);
      DrawText(text);
      Assoc(start, done, TextEvents(c, font, text));
      done := done + TextEvents(c, font, text);
      DrawLogo(disk);
      Assoc(start, done, LogoEvents(c, disk));
      done := done + LogoEvents(c, disk);
      assert done == RenderEvents(c, font, text, disk);
      r := this;
    }

    method CreateImage()
      modifies this`calls, this`imageCreated
      ensures calls == old(calls) + CanvasEvents(Settings())
      ensures imageCreated
    {
      var manager := GetImageManager();
      calls := calls + [CreateCanvas(manager, imageWidth, imageHeight, backgroundColor)];
      imageCreated := true;
    }

    /** `getImageManager`: the driver that renders this object's cards. */
    function GetImageManager(): (d: Driver)
      ensures d == Imagick <==> driver == "imagick"
    {
      DriverFor(driver)
    }

    method DrawBackground(disk: Disk)
      modifies this`calls
      ensures calls == old(calls) + BackgroundEvents(Settings(), disk)
    {
      if backgroundPath.Some? && backgroundPath.value in disk {
        var path := backgroundPath.value;
        var manager := GetImageManager();
        calls := calls + [ReadBackground(manager, path)];
        ghost var scaled: seq<Event> := [];
        if backgroundFill {
          var backgroundWidth := disk[path].width;
          var backgroundHeight := disk[path].height;
          var scale := Geometry.FillScale(backgroundWidth, backgroundHeight, imageWidth, imageHeight);
          if scale.Some? {
            calls := calls + [ScaleBackground(scale.value)];
            scaled := [ScaleBackground(scale.value)];
          }
        }
        ghost var head := [ReadBackground(manager, path)] + scaled;
        assert calls == old(calls) + head;
        ghost var applied: seq<Event> := [];
        if |backgroundEffects| > 0 {
          applied := EffectEvents(Effects.Filter(backgroundEffects));
          ApplyEffects();
          Assoc(old(calls), head, applied);
        }
        calls := calls + [PlaceBackgroundCentred];
        Assoc(old(calls), head + applied, [PlaceBackgroundCentred]);
        assert BackgroundEvents(Settings(), disk) == head + applied + [PlaceBackgroundCentred];
      }
    }

    /** Applies the recognised configured effects, in order, one library call each. */
    method ApplyEffects()
      modifies this`calls
      ensures calls == old(calls) + EffectEvents(Effects.Filter(backgroundEffects))
    {
      var effects := Effects.Filter(backgroundEffects);
      var i := 0;
      while i < |effects|
        invariant 0 <= i <= |effects|
        invariant calls == old(calls) + EffectEvents(effects[..i])
      {
        var effect := effects[i];
        var call := DispatchEffect(effect);
        assert effects[..i + 1] == effects[..i] + [effect];
        EffectEventsSnoc(effects[..i], effect);
        Assoc(old(calls), EffectEvents(effects[..i]), [call]);
        calls := calls + [call];
        i := i + 1;
      }
      assert effects[..i] == effects;
      assert calls == old(calls) + EffectEvents(effects);
    }

    /** The call one effect becomes: no argument for `null`, the elements of an
        array spread, any other value passed alone. */
    static method DispatchEffect(effect: Effects.Entry) returns (call: Event)
      ensures call == ApplyEffect(effect.name, Effects.Arguments(effect.setting))
    {
      if effect.setting.NoArgument? {
        call := ApplyEffect(effect.name, []);
      } else if effect.setting.value.ListV? {
        call := ApplyEffect(effect.name, effect.setting.value.items);
      } else {
        call := ApplyEffect(effect.name, [effect.setting.value]);
      }
    }

    method DrawOverlay()
      requires OverlayColourReadable(Settings())
      modifies this`overlayColor, this`calls
      ensures calls == old(calls) + OverlayEvents(old(Settings()))
      ensures Settings() == AfterOverlay(old(Settings()))
    {
      if 0.0 < overlayAlpha < 1.0 {
        if |overlayColor| == 4 {
          overlayColor := Colour.Expand(overlayColor);
        }
        var rgb := Colour.Parse(overlayColor);
        calls := calls + [DrawRectangle(0, 0, imageWidth, imageHeight,
                                        Rgba(rgb.red, rgb.green, rgb.blue, overlayAlpha))];
      }
    }

    method DrawText(text: string)
      modifies this`calls
      ensures calls == old(calls) + TextEvents(Settings(), font, text)
    {
      calls := calls + [Raster.DrawText(text, textPosX, textPosY,
                          Font(font, textColor, textFontSize, textHorizontalAlign,
                               textVerticalAlign, textLineHeight, textWrapWidth))];
    }

    method DrawLogo(disk: Disk)
      modifies this`calls
      ensures calls == old(calls) + LogoEvents(Settings(), disk)
    {
      if logoPath.Some? && logoPath.value in disk {
        calls := calls + [PlaceLogo(logoPath.value, logoPosition, logoPosX, logoPosY, logoOpacity)];
      }
    }

    /** Encodes the card in the format the path's extension selects. An
        unsupported extension returns false without touching the image; a
        supported one before any render fails, the image never having been made. */
    method Save(path: string) returns (r: Result<bool, SaveError>)
      modifies this`calls
      ensures Export.SaveFormat(path).None? ==> r == Success(false) && calls == old(calls)
      ensures Export.SaveFormat(path).Some? && imageCreated ==>
        r == Success(true) && calls == old(calls) + [Encode(Export.SaveFormat(path).value, path)]
      ensures Export.SaveFormat(path).Some? && !imageCreated ==>
        r == Failure(ImageNotCreated) && calls == old(calls)
    {
      var extension := Export.Lower(Export.Extension(path));
      match Export.FormatFor(extension) {
        case None =>
          r := Success(false);
        case Some(format) =>
          if !imageCreated {
            r := Failure(ImageNotCreated);
          } else {
            calls := calls + [Encode(format, path)];
            r := Success(true);
          }
      }
    }
  }
}
