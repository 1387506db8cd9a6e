/** The remaining-time sector drawn in the circle: the clamped fraction of the
    total still left, the sweep angle it gives, and which kind of SVG path
    describeArc draws for that angle. Endpoint coordinates are not modelled. */
module Arc {

  /** What describeArc returns: the empty string, the closed full-circle path,
      or a pie sector from 12 o'clock whose arc command carries the given
      large-arc flag (its sweep flag is always 1, clockwise). */
  datatype ArcPath = Empty | FullCircle | Sector(largeArc: bool)

  /** `fractionLeft` in updateTimerTextAndArc: remaining / total when the
      total is positive, otherwise 0, then clamped to [0, 1]. */
  function FractionLeft(remaining: real, total: real): (f: real)
    ensures 0.0 <= f <= 1.0
  {
    var f := if total > 0.0 then remaining / total else 0.0;
    if f < 0.0 then 0.0 else if f > 1.0 then 1.0 else f
  }

  /** The clamp: 0 for a zero total or nothing left, the exact share of the
      total when the time left is within it, 1 when it is at least the total. */
  lemma FractionClamp(remaining: real, total: real)
    ensures total <= 0.0 || remaining <= 0.0 ==> FractionLeft(remaining, total) == 0.0
    ensures total > 0.0 && 0.0 <= remaining <= total ==> FractionLeft(remaining, total) * total == remaining
    ensures 0.0 < total <= remaining ==> FractionLeft(remaining, total) == 1.0
  {
    if total > 0.0 {
      var q := remaining / total;
      assert q * total == remaining;
      if remaining <= 0.0 {
        SignOfProduct(q, total);
      } else if remaining >= total {
        assert (q - 1.0) * total == remaining - total;
        SignOfProduct(q - 1.0, total);
      }
    }
  }

  /** The sweep angle of the sector, in degrees. */
  function Angle(remaining: real, total: real): (a: real)
    ensures 0.0 <= a <= 360.0
  {
    FractionLeft(remaining, total) * 360.0
  }

  /** The branch and flag selection of describeArc. */
  function DescribeArc(angle: real): (arc: ArcPath)
    ensures arc == Empty <==> angle <= 0.0
    ensures arc == FullCircle <==> angle >= 360.0
    ensures arc == Sector(true) <==> 180.0 < angle < 360.0
    ensures arc == Sector(false) <==> 0.0 < angle <= 180.0
  {
    if angle <= 0.0 then Empty
    else if angle >= 360.0 then FullCircle
    else Sector(angle > 180.0)
  }

  /** The sector drawn for a remaining time against a total. */
  function ArcFor(remaining: real, total: real): ArcPath
  {
    DescribeArc(Angle(remaining, total))
  }

  /** What the circle shows, in terms of the times: nothing when no time is
      left or the total is zero, the full circle when at least the whole total
      is left (also when a mid-run duration change made remaining exceed the
      total), and otherwise a sector whose large-arc flag is set exactly when
      more than half the total is left. */
  lemma ArcForTimes(remaining: real, total: real)
    ensures total <= 0.0 || remaining <= 0.0 ==> ArcFor(remaining, total) == Empty
    ensures 0.0 < total <= remaining ==> ArcFor(remaining, total) == FullCircle
    ensures 0.0 < remaining < total ==>
      ArcFor(remaining, total) == Sector(2.0 * remaining > total)
  {
    FractionClamp(remaining, total);
    if 0.0 < remaining < total {
      var q := remaining / total;
      assert q * total == remaining;
      QuotientBelowOne(remaining, total);
      assert FractionLeft(remaining, total) == q;
      HalfWay(remaining, total);
    }
  }

  lemma QuotientBelowOne(remaining: real, total: real)
    requires 0.0 < remaining < total
    ensures 0.0 < remaining / total < 1.0
  {
    var q := remaining / total;
    assert q * total == remaining;
    assert (1.0 - q) * total == total - remaining;
    SignOfProduct(1.0 - q, total);
    SignOfProduct(q, total);
  }

  lemma HalfWay(remaining: real, total: real)
    requires 0.0 < remaining < total
    ensures (remaining / total) * 360.0 > 180.0 <==> 2.0 * remaining > total
  {
    var q := remaining / total;
    assert q * total == remaining;
    assert q * 360.0 > 180.0 <==> q > 0.5;
    assert (q - 0.5) * total == remaining - 0.5 * total;
    SignOfProduct(q - 0.5, total);
    assert q > 0.5 <==> remaining - 0.5 * total > 0.0;
    assert remaining - 0.5 * total > 0.0 <==> 2.0 * remaining > total;
  }

  /** With a positive second factor, a product has the sign of the first. */
  lemma SignOfProduct(x: real, y: real)
    requires y > 0.0
    ensures x > 0.0 <==> x * y > 0.0
    ensures x < 0.0 <==> x * y < 0.0
  {
  }

  /** Equal inputs give equal paths, and the full circle, the half sector and
      the empty path are three different results. */
  lemma DescribeArcDistinguishes()
    ensures DescribeArc(360.0) == FullCircle && DescribeArc(0.0) == Empty
    ensures DescribeArc(180.0) == Sector(false) && DescribeArc(180.5) == Sector(true)
    ensures DescribeArc(360.0) != DescribeArc(180.0)
  {
  }
}
