/**
 * The clamping rule both revisions of the player share: a coordinate is
 * pushed up to 0 when negative and then down to `hi - 1` when above it,
 * where `hi - 1` is computed with Go's wrapping subtraction.
 */
module Clamping {
  import opened GoInt

  /** One coordinate after `Clamp(…, hi)`: the two `if`s of the source for that axis. */
  function ClampCoord(v: Int64, hi: Int64): (r: Int64)
    ensures r == v || r == 0 || r == Sub64(hi, 1)
    ensures v < 0 && hi >= 1 ==> r == 0
    ensures MinInt64 < hi <= v ==> r == hi - 1
  {
    var lifted := if v < 0 then 0 else v;
    if lifted > Sub64(hi, 1) then Sub64(hi, 1) else lifted
  }

  /** With a non-empty range the clamped coordinate lies in `[0, hi)`. */
  lemma ClampInRange(v: Int64, hi: Int64)
    requires hi >= 1
    ensures 0 <= ClampCoord(v, hi) < hi
  {
  }

  /** A coordinate already in `[0, hi)` is left where it is. */
  lemma ClampKeepsInRange(v: Int64, hi: Int64)
    requires 0 <= v < hi
    ensures ClampCoord(v, hi) == v
  {
  }

  /** Clamping twice is clamping once, whatever the bound, even an empty or wrapping one. */
  lemma ClampIdempotent(v: Int64, hi: Int64)
    ensures ClampCoord(ClampCoord(v, hi), hi) == ClampCoord(v, hi)
  {
  }

  /** The clamped coordinate is the point of `[0, hi)` nearest to `v`. */
  lemma ClampNearest(v: Int64, hi: Int64, w: int)
    requires hi >= 1 && 0 <= w < hi
    ensures var c := ClampCoord(v, hi); (if c <= v then v - c else c - v) <= (if w <= v then v - w else w - v)
  {
  }

  /**
   * With an empty range (`hi <= 0`) no coordinate fits and the result is `hi - 1`,
   * except for the most negative `hi`, where `hi - 1` wraps to the largest int.
   */
  lemma ClampEmptyRange(v: Int64, hi: Int64)
    requires MinInt64 < hi <= 0
    ensures ClampCoord(v, hi) == hi - 1
  {
  }
}
