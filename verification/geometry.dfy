/** The "fill" decision `drawBackground` makes before placing a background
    photo: which side of the photo to scale to the canvas so that the photo
    covers it (src/OpenGraphImage.php:367-380). */
module Geometry {
  import opened Wrappers

  /** A proportional resize as the library's `scale` performs it: to a given
      width (`scale($w)`) or to a given height (`scale(height: $h)`). */
  datatype Scale = ToWidth(width: int) | ToHeight(height: int)

  /** The scale `drawBackground` issues for a `bw` x `bh` photo on an `iw` x `ih`
      canvas when fill is on. The source compares the float ratios
      `bw / bh <= iw / ih`; on positive integers that is `bw * ih <= iw * bh`.
      No scale is issued when either side already matches (the guard is an `&&`
      of two inequalities). */
  function FillScale(bw: int, bh: int, iw: int, ih: int): (s: Option<Scale>)
    requires bw > 0 && bh > 0 && iw > 0 && ih > 0
    ensures s.Some? ==> s.value == ToWidth(iw) || s.value == ToHeight(ih)
    ensures s.None? ==> bw == iw || bh == ih
  {
    if iw != bw && ih != bh then
      if bw * ih <= iw * bh then Some(ToWidth(iw)) else Some(ToHeight(ih))
    else None
  }

  /** The factor by which a proportional scale multiplies both sides of a `bw` x `bh` photo. */
  function Factor(bw: int, bh: int, s: Scale): (k: real)
    requires bw > 0 && bh > 0
  {
    match s
    case ToWidth(w) => w as real / bw as real
    case ToHeight(h) => h as real / bh as real
  }

  /** A photo scaled by `k` covers the canvas. */
  predicate Covers(bw: int, bh: int, k: real, iw: int, ih: int) {
    k * bw as real >= iw as real && k * bh as real >= ih as real
  }

  lemma DivideBoth(a: real, b: real, c: real, d: real)
    requires b > 0.0 && d > 0.0
    ensures (a / b <= c / d) <==> (a * d <= c * b)
  {
    assert a / b * (b * d) == a * d;
    assert c / d * (b * d) == c * b;
  }

  /** Given fill on, positive sizes and both sides differing: the photo is scaled
      to the canvas width exactly when its aspect ratio is at most the canvas's,
      and to the canvas height otherwise. */
  lemma FillScaleAxis(bw: int, bh: int, iw: int, ih: int)
    requires bw > 0 && bh > 0 && iw > 0 && ih > 0
    requires bw != iw && bh != ih
    ensures (bw as real / bh as real <= iw as real / ih as real) ==> FillScale(bw, bh, iw, ih) == Some(ToWidth(iw))
    ensures (bw as real / bh as real > iw as real / ih as real) ==> FillScale(bw, bh, iw, ih) == Some(ToHeight(ih))
  {
    DivideBoth(bw as real, bh as real, iw as real, ih as real);
    assert (bw * ih) as real == bw as real * ih as real;
    assert (iw * bh) as real == iw as real * bh as real;
  }

  /** Scaling a `pw` x `ph` photo by `cw / pw` gives width `cw` and, when the
      photo is no wider in proportion than the canvas, height at least `ch`. */
  lemma CoverAlongWidth(pw: real, ph: real, cw: real, ch: real)
    requires pw > 0.0 && ph > 0.0 && cw > 0.0 && ch > 0.0
    requires pw * ch <= cw * ph
    ensures cw / pw * pw == cw
    ensures cw / pw * ph >= ch
  {
    var k := cw / pw;
    assert k * pw == cw;
    calc {
      k * ph * pw;
      == k * pw * ph;
      == cw * ph;
      >= pw * ch;
    }
  }

  /** The chosen scale makes one side equal the canvas side and the other at
      least the canvas side: the photo covers the canvas ("cover" fill). */
  lemma FillScaleCovers(bw: int, bh: int, iw: int, ih: int)
    requires bw > 0 && bh > 0 && iw > 0 && ih > 0
    requires FillScale(bw, bh, iw, ih).Some?
    ensures var k := Factor(bw, bh, FillScale(bw, bh, iw, ih).value);
      Covers(bw, bh, k, iw, ih) && (k * bw as real == iw as real || k * bh as real == ih as real)
  {
    var rw, rh, ri, rj := bw as real, bh as real, iw as real, ih as real;
    assert (bw * ih) as real == rw * rj;
    assert (iw * bh) as real == ri * rh;
    if bw * ih <= iw * bh {
      CoverAlongWidth(rw, rh, ri, rj);
    } else {
      CoverAlongWidth(rh, rw, rj, ri);
    }
  }

  /** No smaller proportional scale covers the canvas: the chosen factor is the
      least one that does, so the overflow cropped by centring is minimal. */
  lemma FillScaleMinimal(bw: int, bh: int, iw: int, ih: int, k: real)
    requires bw > 0 && bh > 0 && iw > 0 && ih > 0
    requires FillScale(bw, bh, iw, ih).Some?
    requires Covers(bw, bh, k, iw, ih)
    ensures k >= Factor(bw, bh, FillScale(bw, bh, iw, ih).value)
  {
    match FillScale(bw, bh, iw, ih).value
    case ToWidth(w) =>
      DivideBoth(iw as real, bw as real, k, 1.0);
    case ToHeight(h) =>
      DivideBoth(ih as real, bh as real, k, 1.0);
  }

  /** Whenever one side of the photo already matches the canvas, no scale is
      issued, even if the other side is shorter; such a photo, left at its own
      size, does not cover the canvas (a 1200 x 300 photo on a 1200 x 630
      canvas stays 1200 x 300). */
  lemma MatchingSideSkipsScale(bw: int, bh: int, iw: int, ih: int)
    requires bw > 0 && bh > 0 && iw > 0 && ih > 0
    requires bw == iw || bh == ih
    ensures FillScale(bw, bh, iw, ih) == None
    ensures bw == iw && bh < ih ==> !Covers(bw, bh, 1.0, iw, ih)
    ensures bh == ih && bw < iw ==> !Covers(bw, bh, 1.0, iw, ih)
  {
  }
}
