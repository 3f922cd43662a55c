/** Detection boxes and the overlap measure the tracker associates by. */
module Boxes {
  import opened Numbers

  datatype Box = Box(x1: real, y1: real, x2: real, y2: real, confidence: real) {

    function Width(): real { Max(0.0, x2 - x1) }

    function Height(): real { Max(0.0, y2 - y1) }

    function Area(): real { Width() * Height() }

    function CentreX(): real { (x1 + x2) / 2.0 }

    function CentreY(): real { (y1 + y2) / 2.0 }

    function Overlap(other: Box): real {
      var left, top := Max(x1, other.x1), Max(y1, other.y1);
      var right, bottom := Min(x2, other.x2), Min(y2, other.y2);
      if right <= left || bottom <= top then 0.0 else (right - left) * (bottom - top)
    }

    /** Intersection over union. */
    function Iou(other: Box): real {
      var union := Area() + other.Area() - Overlap(other);
      if Overlap(other) > 0.0 && union > 0.0 then Overlap(other) / union else 0.0
    }
  }

  datatype FrameDetections = FrameDetections(frameIndex: int, timestamp: real, boxes: seq<Box>)

  lemma ProductMonotone(a: real, b: real, c: real, d: real)
    requires 0.0 <= a <= c && 0.0 <= b <= d
    ensures a * b <= c * d
  {
    assert a * b <= c * b;
    assert c * b <= c * d;
  }

  lemma RatioInUnit(part: real, whole: real)
    requires 0.0 <= part <= whole && whole > 0.0
    ensures 0.0 <= part / whole <= 1.0
    ensures part / whole == 1.0 <==> part == whole
  {
  }

  lemma OverlapFits(a: Box, b: Box)
    ensures 0.0 <= a.Overlap(b) <= a.Area()
    ensures a.Overlap(b) <= b.Area()
  {
    var width := Min(a.x2, b.x2) - Max(a.x1, b.x1);
    var height := Min(a.y2, b.y2) - Max(a.y1, b.y1);
    ProductMonotone(0.0, 0.0, a.Width(), a.Height());
    ProductMonotone(0.0, 0.0, b.Width(), b.Height());
    if width > 0.0 && height > 0.0 {
      ProductMonotone(0.0, 0.0, width, height);
      ProductMonotone(width, height, a.Width(), a.Height());
      ProductMonotone(width, height, b.Width(), b.Height());
    }
  }

  lemma OverlapIsSymmetric(a: Box, b: Box)
    ensures a.Overlap(b) == b.Overlap(a)
  {
  }

  lemma OverlapWithItself(a: Box)
    ensures a.Overlap(a) == a.Area()
  {
    if a.x2 <= a.x1 || a.y2 <= a.y1 {
      assert a.Width() == 0.0 || a.Height() == 0.0;
    }
  }

  /** IoU lies in 0..1, does not depend on the order of the boxes, and is 1 for a box of positive area with itself. */
  lemma IouIsARatio(a: Box, b: Box)
    ensures 0.0 <= a.Iou(b) <= 1.0
    ensures a.Iou(b) == b.Iou(a)
    ensures a.Area() > 0.0 ==> a.Iou(a) == 1.0
  {
    hide Box.Overlap;
    hide Box.Area;
    OverlapFits(a, b);
    OverlapIsSymmetric(a, b);
    OverlapWithItself(a);
    var union := a.Area() + b.Area() - a.Overlap(b);
    assert union == b.Area() + a.Area() - b.Overlap(a);
    if a.Overlap(b) > 0.0 {
      RatioInUnit(a.Overlap(b), union);
    }
    if a.Area() > 0.0 {
      RatioInUnit(a.Area(), a.Area());
    }
  }

  lemma ProductsMeetOnlyAtTheTop(a: real, b: real, c: real, d: real)
    requires 0.0 < a <= c && 0.0 < b <= d && a * b == c * d
    ensures a == c && b == d
  {
    ProductMonotone(a, b, c, b);
    ProductMonotone(c, b, c, d);
    SameFactor(a, c, b);
    SameFactor(b, d, c);
  }

  lemma SameFactor(x: real, y: real, k: real)
    requires k > 0.0 && x * k == y * k
    ensures x == y
  {
    assert (x - y) * k == 0.0;
  }

  /** Full overlap means the same box: an IoU of 1 is reached only by equal corners. */
  lemma IouOneMeansSameCorners(a: Box, b: Box)
    requires a.Area() > 0.0 && b.Area() > 0.0
    ensures a.Iou(b) == 1.0 <==> a.x1 == b.x1 && a.y1 == b.y1 && a.x2 == b.x2 && a.y2 == b.y2
  {
    OverlapFits(a, b);
    OverlapWithItself(a);
    var union := a.Area() + b.Area() - a.Overlap(b);
    RatioInUnit(a.Overlap(b), union);
    if a.Iou(b) == 1.0 {
      assert a.Overlap(b) == a.Area() == b.Area();
      SameExtent(a, b);
    }
  }

  lemma SameExtent(a: Box, b: Box)
    requires a.Area() > 0.0 && b.Area() > 0.0 && a.Overlap(b) == a.Area() == b.Area()
    ensures a.x1 == b.x1 && a.y1 == b.y1 && a.x2 == b.x2 && a.y2 == b.y2
  {
    var width := Min(a.x2, b.x2) - Max(a.x1, b.x1);
    var height := Min(a.y2, b.y2) - Max(a.y1, b.y1);
    assert a.Overlap(b) == width * height;
    PositiveSides(a);
    PositiveSides(b);
    ProductsMeetOnlyAtTheTop(width, height, a.Width(), a.Height());
    ProductsMeetOnlyAtTheTop(width, height, b.Width(), b.Height());
  }

  lemma PositiveSides(a: Box)
    requires a.Area() > 0.0
    ensures a.Width() > 0.0 && a.Height() > 0.0
  {
    if a.Width() == 0.0 || a.Height() == 0.0 {
      assert false;
    }
  }

  /** How far two boxes share an axis: the length common to both sides. */
  function Shared(from: real, to: real, otherFrom: real, otherTo: real): real {
    var common := (if to < otherTo then to else otherTo) - (if from > otherFrom then from else otherFrom);
    if common > 0.0 then common else 0.0
  }

  lemma OverlapIsShared(a: Box, b: Box)
    ensures a.Overlap(b) == Shared(a.x1, a.x2, b.x1, b.x2) * Shared(a.y1, a.y2, b.y1, b.y2)
  {
  }

  /**
   * IoU is the shared area over the area either box covers: multiplied by the latter it
   * gives the former, and it is zero exactly for boxes that share no area.
   */
  lemma IouIsSharedOverCovered(a: Box, b: Box)
    ensures var shared := Shared(a.x1, a.x2, b.x1, b.x2) * Shared(a.y1, a.y2, b.y1, b.y2);
            && a.Iou(b) * (a.Area() + b.Area() - shared) == shared
            && (a.Iou(b) > 0.0 <==> shared > 0.0)
  {
    OverlapIsShared(a, b);
    OverlapFits(a, b);
    hide Box.Overlap, Box.Area, Shared;
    var union := a.Area() + b.Area() - a.Overlap(b);
    if a.Overlap(b) > 0.0 {
      RatioInUnit(a.Overlap(b), union);
      assert a.Overlap(b) / union > 0.0;
    }
  }

  /** A box inside another overlaps it by its share of the area. */
  lemma IouOfNested(a: Box, b: Box)
    requires a.x1 <= b.x1 < b.x2 <= a.x2 && a.y1 <= b.y1 < b.y2 <= a.y2
    ensures a.Area() > 0.0 && a.Iou(b) == b.Area() / a.Area()
  {
    assert a.Overlap(b) == b.Area();
    ProductPositive(a.Width(), a.Height());
    ProductPositive(b.Width(), b.Height());
  }

  /** Equal boxes side by side, shifted by a part of their width, overlap by (width - shift) over (width + shift). */
  lemma IouOfShifted(a: Box, shift: real)
    requires a.x1 < a.x2 && a.y1 < a.y2 && 0.0 <= shift <= a.x2 - a.x1
    ensures var b := Box(a.x1 + shift, a.y1, a.x2 + shift, a.y2, a.confidence);
            a.Iou(b) == (a.Width() - shift) / (a.Width() + shift)
  {
    var b := Box(a.x1 + shift, a.y1, a.x2 + shift, a.y2, a.confidence);
    var w, h := a.Width(), a.Height();
    assert b.Width() == w && b.Height() == h && b.Area() == w * h == a.Area();
    var common := w - shift;
    if common <= 0.0 {
      assert a.Overlap(b) == 0.0;
    } else {
      assert a.Overlap(b) == common * h;
      ProductPositive(common, h);
      hide Box.Overlap, Box.Area, Box.Width, Box.Height;
      assert w * h + w * h - common * h == (w + shift) * h;
      CancelHeight(common, w + shift, h);
    }
  }

  lemma CancelHeight(a: real, b: real, h: real)
    requires a > 0.0 && b > 0.0 && h > 0.0
    ensures b * h > 0.0 && (a * h) / (b * h) == a / b
  {
    ProductPositive(b, h);
    var r := a / b;
    assert a == r * b;
    assert a * h == r * (b * h);
  }
}
