/**
 * The depth interval the statistics and the plot work on: a requested top or bottom
 * of -999 (the default), or one outside the well's START..STOP range, is replaced by
 * START or STOP.
 */
module Interval {
  import opened PyFloat

  /** The "no depth requested" value of `top_interval` and `bottom_interval`. */
  const NotGiven: Num := Finite(-999.0)

  /**
   * The corrected top: START when none was requested or the request lies above START.
   * It is the request or START, never above START, and -999 survives only as START.
   */
  function ClampTop(top: Num, start: Num): (r: Num)
    ensures r == top || r == start
    ensures !Less(r, start)
    ensures Eq(r, NotGiven) ==> r == start
  {
    if Eq(top, NotGiven) || Less(top, start) then start else top
  }

  /**
   * The corrected bottom: STOP when none was requested or the request lies below STOP.
   * It is the request or STOP, never below STOP, and -999 survives only as STOP.
   */
  function ClampBottom(bottom: Num, stop: Num): (r: Num)
    ensures r == bottom || r == stop
    ensures !Less(stop, r)
    ensures Eq(r, NotGiven) ==> r == stop
  {
    if Eq(bottom, NotGiven) || Less(stop, bottom) then stop else bottom
  }

  /** Both corrections, as `petrophysics_by_depth` and `plot_cpi_by_depth` apply them. */
  function ClampInterval(top: Num, bottom: Num, start: Num, stop: Num): (r: (Num, Num))
    ensures r.0 == top || r.0 == start
    ensures r.1 == bottom || r.1 == stop
    ensures !Less(r.0, start) && !Less(stop, r.1)
  {
    (ClampTop(top, start), ClampBottom(bottom, stop))
  }

  /** With the default arguments the interval is the whole logged range. */
  lemma DefaultIsWholeRange(start: Num, stop: Num)
    ensures ClampInterval(NotGiven, NotGiven, start, stop) == (start, stop)
  {
  }

  /** A requested interval inside START..STOP, with neither end -999, is kept as it is. */
  lemma InsideRangeKept(top: real, bottom: real, start: real, stop: real)
    requires start <= top && bottom <= stop
    requires top != -999.0 && bottom != -999.0
    ensures ClampInterval(Finite(top), Finite(bottom), Finite(start), Finite(stop)) == (Finite(top), Finite(bottom))
  {
  }

  /** Correcting an already corrected interval changes nothing. */
  lemma ClampIdempotent(top: Num, bottom: Num, start: Num, stop: Num)
    ensures var r := ClampInterval(top, bottom, start, stop);
      ClampInterval(r.0, r.1, start, stop) == r
  {
  }

  /**
   * With finite values the corrected top is at least START and the corrected bottom at
   * most STOP; a top beyond STOP or a bottom before START is left as requested.
   */
  lemma ClampWithinRange(top: real, bottom: real, start: real, stop: real)
    ensures var r := ClampInterval(Finite(top), Finite(bottom), Finite(start), Finite(stop));
      && r.0.Finite? && r.1.Finite?
      && start <= r.0.v && r.1.v <= stop
  {
  }
}
