/**
 * The numeric decisions the scroller takes on release and when paginating: how fast the content
 * may keep moving after the finger lifts, and whether a settling scroller snaps forward to the
 * next page or back to the start of the current one.
 */
module ScrollPolicy {
  import opened Wrappers

  function Abs(x: real): (r: real)
    ensures r >= 0.0 && (r == x || r == -x)
  {
    if x < 0.0 then -x else x
  }

  /** The release speed limit; while slipping past an edge it is scaled by the edge grip. */
  function ReleaseLimit(speedLimit: real, edgeGrip: real, slip: bool): real
  {
    if slip then speedLimit * edgeGrip else speedLimit
  }

  /** The release velocity clamped into [-limit, limit]. */
  function ClampSpeed(v: real, limit: real): (r: real)
    ensures limit >= 0.0 ==> -limit <= r <= limit
    ensures limit >= 0.0 ==> Abs(r) <= Abs(v)
    ensures -limit <= v <= limit ==> r == v
    ensures r == v || r == limit || r == -limit
    ensures v < -limit ==> r == -limit
    ensures limit >= 0.0 && v > limit ==> r == limit
  {
    if v < -limit then -limit
    else if v > limit then limit
    else v
  }

  /** Clamping twice is clamping once. */
  lemma ClampIdempotent(v: real, limit: real)
    requires limit >= 0.0
    ensures ClampSpeed(ClampSpeed(v, limit), limit) == ClampSpeed(v, limit)
  {
  }

  /** Whether the speed is below the page-stop threshold; an absent threshold is infinite. */
  predicate BelowStopSpeed(speed: real, pageStopSpeed: Option<real>)
  {
    pageStopSpeed.None? || speed < pageStopSpeed.value
  }

  /**
   * The pagination decision: whether to advance to the next page. A flick faster than the
   * switch speed decides by its direction alone; a slower one decides by whether the position
   * has passed the middle of the current page.
   */
  function AdvancesPage(v: real, pos: real, pageExtent: real, pageSwitchSpeed: real): (next: bool)
    ensures Abs(v) > pageSwitchSpeed ==> (next <==> v > 0.0)
    ensures Abs(v) <= pageSwitchSpeed ==> (next <==> pos > pageExtent / 2.0)
  {
    var velSwitch := Abs(v) > pageSwitchSpeed;
    var velNext := v > 0.0;
    var posNext := pos > 0.5 * pageExtent;
    (velSwitch && velNext) || (!velSwitch && posNext)
  }

  /** A slow scroller resting exactly half-way through a page stays on it. */
  lemma HalfPageStays(v: real, pageExtent: real, pageSwitchSpeed: real)
    requires Abs(v) <= pageSwitchSpeed
    ensures !AdvancesPage(v, pageExtent / 2.0, pageExtent, pageSwitchSpeed)
  {
  }

  /** Moving further forward never turns an advance into a stay. */
  lemma AdvancesPageMonotone(v: real, pos: real, pos': real, pageExtent: real, pageSwitchSpeed: real)
    requires pos <= pos'
    ensures AdvancesPage(v, pos, pageExtent, pageSwitchSpeed) ==> AdvancesPage(v, pos', pageExtent, pageSwitchSpeed)
  {
  }
}
