/** The calls the compositor makes on the raster library, recorded as events.
    The library itself (pixel buffers, decoding and encoding, effect arithmetic,
    glyph rendering, anchor resolution in `place`) is not part of this model;
    what the compositor asks of it, and in which order, is. */
module Raster {
  import Geometry
  import Effects
  import Export

  /** The library driver `getImageManager` selects. */
  datatype Driver = Gd | Imagick

  /** The fill of the overlay rectangle, `rgba(r, g, b, alpha)`. */
  datatype Rgba = Rgba(red: nat, green: nat, blue: nat, alpha: real)

  /** The font settings `drawText` hands to the library. */
  datatype Font = Font(
    file: string, colour: string, size: int,
    align: string, valign: string, lineHeight: real, wrap: int)

  datatype Event =
    | CreateCanvas(driver: Driver, width: int, height: int, background: string)
    | ReadBackground(driver: Driver, path: string)
    | ScaleBackground(scale: Geometry.Scale)
    | ApplyEffect(name: string, args: seq<Effects.Value>)
    | PlaceBackgroundCentred
    | DrawRectangle(x: int, y: int, width: int, height: int, colour: Rgba)
    | DrawText(text: string, x: int, y: int, font: Font)
    | PlaceLogo(path: string, position: string, offsetX: int, offsetY: int, opacity: int)
    | Encode(format: Export.Format, path: string)

  /** The layer an event belongs to: canvas, background, overlay, text, logo, export. */
  function Layer(e: Event): (k: nat)
  {
    match e
    case CreateCanvas(_, _, _, _) => 0
    case ReadBackground(_, _) => 1
    case ScaleBackground(_) => 1
    case ApplyEffect(_, _) => 1
    case PlaceBackgroundCentred => 1
    case DrawRectangle(_, _, _, _, _) => 2
    case DrawText(_, _, _, _) => 3
    case PlaceLogo(_, _, _, _, _) => 4
    case Encode(_, _) => 5
  }

  /** No event of a later layer comes before one of an earlier layer. */
  predicate InLayerOrder(s: seq<Event>) {
    forall i, j :: 0 <= i < j < |s| ==> Layer(s[i]) <= Layer(s[j])
  }

  predicate AllInLayer(s: seq<Event>, k: nat) {
    forall i :: 0 <= i < |s| ==> Layer(s[i]) == k
  }

  predicate AtMostLayer(s: seq<Event>, k: nat) {
    forall i :: 0 <= i < |s| ==> Layer(s[i]) <= k
  }

  /** Appending events of a layer no earlier than any already present keeps the order. */
  lemma AppendLayer(s: seq<Event>, p: seq<Event>, k: nat)
    requires InLayerOrder(s) && AtMostLayer(s, k) && AllInLayer(p, k)
    ensures InLayerOrder(s + p) && AtMostLayer(s + p, k)
  {
    var t := s + p;
    forall i, j | 0 <= i < j < |t|
      ensures Layer(t[i]) <= Layer(t[j])
    {
      if j < |s| {
        assert t[i] == s[i] && t[j] == s[j];
      } else if i < |s| {
        assert t[i] == s[i] && t[j] == p[j - |s|];
      } else {
        assert t[i] == p[i - |s|] && t[j] == p[j - |s|];
      }
    }
  }

  lemma Assoc(a: seq<Event>, b: seq<Event>, c: seq<Event>)
    ensures a + b + c == a + (b + c)
  {
  }

  /** The effect calls among `s`, in their order. */
  function AppliedEffects(s: seq<Event>): (r: seq<Event>)
  {
    if s == [] then []
    else (if s[0].ApplyEffect? then [s[0]] else []) + AppliedEffects(s[1..])
  }

  lemma {:induction false} AppliedEffectsAppend(a: seq<Event>, b: seq<Event>)
    ensures AppliedEffects(a + b) == AppliedEffects(a) + AppliedEffects(b)
  {
    if a == [] {
      assert a + b == b;
    } else {
      var h := if a[0].ApplyEffect? then [a[0]] else [];
      assert (a + b)[0] == a[0] && (a + b)[1..] == a[1..] + b;
      assert AppliedEffects(a + b) == h + AppliedEffects(a[1..] + b);
      AppliedEffectsAppend(a[1..], b);
      Assoc(h, AppliedEffects(a[1..]), AppliedEffects(b));
    }
  }

  lemma {:induction false} AppliedEffectsOfEffects(s: seq<Event>)
    requires forall i :: 0 <= i < |s| ==> s[i].ApplyEffect?
    ensures AppliedEffects(s) == s
  {
    if s != [] {
      AppliedEffectsOfEffects(s[1..]);
    }
  }

  lemma {:induction false} AppliedEffectsOfOthers(s: seq<Event>)
    requires forall i :: 0 <= i < |s| ==> !s[i].ApplyEffect?
    ensures AppliedEffects(s) == []
  {
    if s != [] {
      AppliedEffectsOfOthers(s[1..]);
    }
  }

  /** Every effect call of `s` is among its applied effects. */
  lemma {:induction false} AppliedEffectsContains(s: seq<Event>, i: int)
    requires 0 <= i < |s| && s[i].ApplyEffect?
    ensures s[i] in AppliedEffects(s)
  {
    if i > 0 {
      AppliedEffectsContains(s[1..], i - 1);
    }
  }

  /** The events of layer `k` among `s`, in their order. */
  function OfLayer(s: seq<Event>, k: nat): (r: seq<Event>)
  {
    if s == [] then []
    else (if Layer(s[0]) == k then [s[0]] else []) + OfLayer(s[1..], k)
  }

  lemma {:induction false} OfLayerAppend(a: seq<Event>, b: seq<Event>, k: nat)
    ensures OfLayer(a + b, k) == OfLayer(a, k) + OfLayer(b, k)
  {
    if a == [] {
      assert a + b == b;
    } else {
      var h := if Layer(a[0]) == k then [a[0]] else [];
      assert (a + b)[0] == a[0] && (a + b)[1..] == a[1..] + b;
      assert OfLayer(a + b, k) == h + OfLayer(a[1..] + b, k);
      OfLayerAppend(a[1..], b, k);
      Assoc(h, OfLayer(a[1..], k), OfLayer(b, k));
    }
  }

  lemma {:induction false} OfLayerAll(s: seq<Event>, k: nat, j: nat)
    requires AllInLayer(s, k)
    ensures OfLayer(s, j) == if j == k then s else []
  {
    if s != [] {
      OfLayerAll(s[1..], k, j);
    }
  }

  /** An event of layer `k` in `s` is among the layer's events. */
  lemma {:induction false} OfLayerHas(s: seq<Event>, k: nat, i: int)
    requires 0 <= i < |s| && Layer(s[i]) == k
    ensures s[i] in OfLayer(s, k)
  {
    if i > 0 {
      OfLayerHas(s[1..], k, i - 1);
    }
  }

  /** The layer's events are events of `s`. */
  lemma {:induction false} OfLayerWithin(s: seq<Event>, k: nat, e: Event)
    requires e in OfLayer(s, k)
    ensures e in s && Layer(e) == k
  {
    if s[0] != e || Layer(s[0]) != k {
      OfLayerWithin(s[1..], k, e);
    }
  }

  /** The layer-`k` events of a concatenation of parts that each lie in one layer. */
  lemma OfLayerJoin(a: seq<Event>, b: seq<Event>, kb: nat, k: nat)
    requires AllInLayer(b, kb)
    ensures OfLayer(a + b, k) == OfLayer(a, k) + (if k == kb then b else [])
  {
    OfLayerAppend(a, b, k);
    OfLayerAll(b, kb, k);
  }

  /** Five parts, each in its own layer 0 to 4, are recovered layer by layer from
      their concatenation. */
  lemma LayeredParts(s0: seq<Event>, s1: seq<Event>, s2: seq<Event>, s3: seq<Event>, s4: seq<Event>)
    requires AllInLayer(s0, 0) && AllInLayer(s1, 1) && AllInLayer(s2, 2)
    requires AllInLayer(s3, 3) && AllInLayer(s4, 4)
    ensures var r := s0 + s1 + s2 + s3 + s4;
      OfLayer(r, 0) == s0 && OfLayer(r, 1) == s1 && OfLayer(r, 2) == s2
      && OfLayer(r, 3) == s3 && OfLayer(r, 4) == s4
  {
    forall k | 0 <= k <= 4
      ensures OfLayer(s0 + s1 + s2 + s3 + s4, k) ==
        (if k == 0 then s0 else []) + (if k == 1 then s1 else []) + (if k == 2 then s2 else [])
        + (if k == 3 then s3 else []) + (if k == 4 then s4 else [])
    {
      OfLayerAll(s0, 0, k);
      OfLayerJoin(s0, s1, 1, k);
      OfLayerJoin(s0 + s1, s2, 2, k);
      OfLayerJoin(s0 + s1 + s2, s3, 3, k);
      OfLayerJoin(s0 + s1 + s2 + s3, s4, 4, k);
    }
  }

  /** In five parts lying in layers 0 to 4, an event of layer `k` comes from part `k`. */
  lemma FromPart(s0: seq<Event>, s1: seq<Event>, s2: seq<Event>, s3: seq<Event>, s4: seq<Event>, i: int)
    requires AllInLayer(s0, 0) && AllInLayer(s1, 1) && AllInLayer(s2, 2)
    requires AllInLayer(s3, 3) && AllInLayer(s4, 4)
    requires 0 <= i < |s0 + s1 + s2 + s3 + s4|
    ensures var e := (s0 + s1 + s2 + s3 + s4)[i];
      (Layer(e) == 0 ==> e in s0) && (Layer(e) == 1 ==> e in s1) && (Layer(e) == 2 ==> e in s2)
      && (Layer(e) == 3 ==> e in s3) && (Layer(e) == 4 ==> e in s4)
  {
    var r := s0 + s1 + s2 + s3 + s4;
    LayeredParts(s0, s1, s2, s3, s4);
    OfLayerHas(r, Layer(r[i]), i);
  }

  /** In five parts lying in layers 0 to 4, the layer-1 events are exactly the
      second part, placed right after the first. */
  lemma LayerOnePosition(s0: seq<Event>, s1: seq<Event>, s2: seq<Event>, s3: seq<Event>, s4: seq<Event>, i: int)
    requires AllInLayer(s0, 0) && AllInLayer(s1, 1) && AllInLayer(s2, 2)
    requires AllInLayer(s3, 3) && AllInLayer(s4, 4)
    ensures var r := s0 + s1 + s2 + s3 + s4;
      0 <= i < |r| && Layer(r[i]) == 1 ==> |s0| <= i < |s0| + |s1| && r[i] == s1[i - |s0|]
    ensures var r := s0 + s1 + s2 + s3 + s4;
      0 <= i < |s1| ==> r[|s0| + i] == s1[i]
  {
    var r := s0 + s1 + s2 + s3 + s4;
    var t := s2 + s3 + s4;
    assert r == s0 + s1 + t;
    if 0 <= i < |s1| {
      assert r[|s0| + i] == s1[i];
    }
    if 0 <= i < |r| {
      if i < |s0| {
        assert r[i] == s0[i];
      } else if i < |s0| + |s1| {
        assert r[i] == s1[i - |s0|];
      } else {
        var j := i - |s0| - |s1|;
        assert r[i] == t[j];
        if j < |s2| {
          assert t[j] == s2[j];
        } else if j < |s2| + |s3| {
          assert t[j] == s3[j - |s2|];
        } else {
          assert t[j] == s4[j - |s2| - |s3|];
        }
      }
    }
  }

  /** In five parts lying in layers 0 to 4, every effect call comes from the second part. */
  lemma AppliedEffectsOfLayered(s0: seq<Event>, s1: seq<Event>, s2: seq<Event>, s3: seq<Event>, s4: seq<Event>)
    requires AllInLayer(s0, 0) && AllInLayer(s1, 1) && AllInLayer(s2, 2)
    requires AllInLayer(s3, 3) && AllInLayer(s4, 4)
    ensures AppliedEffects(s0 + s1 + s2 + s3 + s4) == AppliedEffects(s1)
  {
    AppliedEffectsAppend(s0 + s1 + s2 + s3, s4);
    AppliedEffectsAppend(s0 + s1 + s2, s3);
    AppliedEffectsAppend(s0 + s1, s2);
    AppliedEffectsAppend(s0, s1);
    AppliedEffectsOfOthers(s0);
    AppliedEffectsOfOthers(s2);
    AppliedEffectsOfOthers(s3);
    AppliedEffectsOfOthers(s4);
  }
}
