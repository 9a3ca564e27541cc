/**
 * The paginated scroll engine: a single-axis state machine that turns touch start, move and end
 * samples into writes of a particle's position and velocity, keeps that position bounded by
 * re-homing the current page, windows the visible pages, pins a spring at the edges, snaps to
 * pages, and reports when the current page changes.
 *
 * The physics engine is represented only by the set of forces attached to the particle; the
 * integration step that moves the particle between frames lives outside this model, so every
 * operation here accepts any particle position and velocity.
 */
module Scroller {
  import opened Wrappers
  import opened PageGeometry
  import opened ScrollPolicy

  datatype Axis = X | Y

  /** Forces the physics engine can attach: quadratic drag, linear friction, the spring. */
  datatype Force = Drag | Friction | Spring

  /** A sample from the input synchroniser: touch count, position, velocity, slipping past an edge. */
  datatype SyncEvent = SyncEvent(count: Option<nat>, p: real, v: real, slip: bool)

  /** The configuration the scroll engine reads; an absent `pageStopSpeed` is infinite. */
  datatype Options = Options(
    direction: Axis,
    clipSize: Option<real>,
    margin: Option<real>,
    edgeGrip: real,
    edgePeriod: real,
    edgeDamp: real,
    paginated: bool,
    pagePeriod: real,
    pageDamp: real,
    pageStopSpeed: Option<real>,
    pageSwitchSpeed: real,
    speedLimit: real)

  const DefaultOptions := Options(Y, None, None, 0.5, 300.0, 1.0, false, 500.0, 0.8, None, 1.0, 10.0)

  function CountOr(count: Option<nat>, default: nat): nat
  {
    if count.Some? then count.value else default
  }

  function Max(a: real, b: real): real
  {
    if a < b then b else a
  }

  /** The spring counts as settled below this speed when the scroller leaves an edge. */
  const SettleSpeed := 0.001

  predicate Settled(v: Option<real>)
  {
    v.Some? && Abs(v.value) < SettleSpeed
  }

  /**
   * The forward walk of a render: from the current node `n` on, each page within reach of the
   * position is placed at its offset plus the master offset and its offset recorded, and the
   * walk stops at the first page out of reach or past the last page. Running off the end with
   * the end of the content inside the clip is the end edge.
   */
  method WalkForward(ext: seq<real>, n: nat, pos: real, clip: real, limit: real, master: real)
    returns (placed: seq<Placement>, table: map<nat, real>, stop: nat, edge: bool)
    requires n < |ext|
    ensures stop == ForwardEnd(ext, n, n, pos, limit)
    ensures placed == ForwardPlacements(ext, n, stop, master)
    ensures table == OffsetTable(ext, n, n, if stop < |ext| then stop + 1 else |ext|)
    ensures edge <==> stop == |ext| && Offset(ext, n, |ext|) - pos <= clip
  {
    placed := [];
    table := map[n := 0.0];
    edge := false;
    var offset := 0.0;
    stop := n;
    assert table == OffsetTable(ext, n, n, n + 1);
    while stop < |ext| && offset - pos < limit
      invariant n <= stop <= |ext|
      invariant offset == Offset(ext, n, stop)
      invariant ForwardEnd(ext, n, stop, pos, limit) == ForwardEnd(ext, n, n, pos, limit)
      invariant placed == ForwardPlacements(ext, n, stop, master)
      invariant table == OffsetTable(ext, n, n, if stop < |ext| then stop + 1 else |ext|)
      invariant edge <==> stop == |ext| && offset - pos <= clip
    {
      placed := placed + [Placement(stop, offset + master)];
      offset := offset + ext[stop];
      stop := stop + 1;
      if stop < |ext| {
        table := table[stop := offset];
      }
      if stop == |ext| && offset - pos <= clip {
        edge := true;
      }
    }
  }

  /**
   * The backward walk of a render: the pages before the current node `n`, nearest first, while
   * within reach, added to the offsets the forward walk recorded. Having no page before the
   * current node with the position at or before its start is the start edge.
   */
  method WalkBackward(ext: seq<real>, n: nat, pos: real, limit: real, master: real, table0: map<nat, real>, hi: nat)
    returns (placed: seq<Placement>, table: map<nat, real>, start: nat, edge: bool)
    requires n < |ext| && n <= hi <= |ext|
    requires table0 == OffsetTable(ext, n, n, hi)
    ensures start == BackwardStart(ext, n, n, pos, limit)
    ensures placed == BackwardPlacements(ext, n, start, master)
    ensures table == OffsetTable(ext, n, start, hi)
    ensures edge <==> n == 0 && pos <= 0.0
  {
    placed := [];
    table := table0;
    edge := false;
    start := n;
    var offset := 0.0;
    if start > 0 {
      offset := offset - ext[start - 1];
    } else if pos <= 0.0 {
      edge := true;
    }
    while start > 0 && offset - pos > -limit
      invariant start <= n
      invariant start > 0 ==> offset == Offset(ext, n, start - 1)
      invariant BackwardStart(ext, n, start, pos, limit) == BackwardStart(ext, n, n, pos, limit)
      invariant placed == BackwardPlacements(ext, n, start, master)
      invariant table == OffsetTable(ext, n, start, hi)
      invariant edge <==> n == 0 && pos <= 0.0
    {
      table := table[start - 1 := offset];
      placed := placed + [Placement(start - 1, offset + master)];
      start := start - 1;
      if start > 0 {
        offset := offset - ext[start - 1];
      }
    }
  }

  /**
   * Both walks of a render: forward from the current node `n`, then backward from it, adding to
   * the offsets the forward walk recorded; the start edge, when seen, wins over the end edge.
   * Also says whether the forward walk saw the end edge, which pins the spring on its own.
   */
  method WalkWindow(ext: seq<real>, n: nat, pos: real, clip: real, margin: real, master: real)
    returns (w: Window, endEdge: bool)
    requires n < |ext|
    ensures w == RenderedWindow(ext, n, pos, clip, margin, master)
    ensures endEdge <==> ForwardEnd(ext, n, n, pos, clip + margin) == |ext| && Offset(ext, n, |ext|) - pos <= clip
    ensures w.edge == if n == 0 && pos <= 0.0 then -1 else if endEdge then 1 else 0
  {
    var fwd, table, fe, fwdEdge := WalkForward(ext, n, pos, clip, clip + margin, master);
    var bwd, bs, bwdEdge;
    bwd, table, bs, bwdEdge := WalkBackward(ext, n, pos, clip + margin, master, table, if fe < |ext| then fe + 1 else |ext|);
    var edgeDetected := if bwdEdge then -1 else if fwdEdge then 1 else 0;
    w := Window(fwd + bwd, table, edgeDetected);
    endEdge := fwdEdge;
  }

  /** The point mass whose position is the scroll position. */
  class Particle {
    var pos: real
    var vel: real

    constructor ()
      ensures pos == 0.0 && vel == 0.0
    {
      pos := 0.0;
      vel := 0.0;
    }
  }

  class Scrollview {
    const options: Options
    const margin: real
    const particle: Particle

    /** The page sequence, by each page's size along the scroll axis (None: no size reported). */
    var pages: seq<Option<real>>
    /** The current node: the page the particle position is measured from. */
    var node: Option<nat>
    var lastFrameNode: Option<nat>
    var contextSize: (real, real)
    /** The forces attached to the particle in the physics engine. */
    var forces: set<Force>
    var springAttached: bool
    /** The spring's anchor. */
    var springPosition: real
    var springPeriod: real
    var springDamping: real
    var touchCount: nat
    var touchVelocity: Option<real>
    var earlyEnd: bool
    /** -1 at the start edge, 1 at the end edge, 0 away from both. */
    var onEdge: int
    var masterOffset: real
    var offsetDifferential: real
    /** Offsets recorded by the last render, keyed by page. */
    var offsets: map<nat, real>
    /** The scale the input synchroniser applies to samples. */
    var inputScale: real

    ghost predicate Valid()
      reads this`pages, this`node, this`lastFrameNode, this`onEdge, this`springAttached, this`forces
    {
      && (node.Some? ==> node.value < |pages|)
      && (lastFrameNode.Some? ==> lastFrameNode.value < |pages|)
      && -1 <= onEdge <= 1
      && (springAttached <==> Spring in forces)
      && (Drag in forces <==> Friction in forces)
    }

    function ContextExtent(): real
      reads this`contextSize
    {
      if options.direction == X then contextSize.0 else contextSize.1
    }

    /** Page extents along the scroll axis. */
    function Ext(): (ext: seq<real>)
      reads this`pages, this`contextSize
      ensures |ext| == |pages|
    {
      Extents(pages, ContextExtent())
    }

    /** A clip size that is set and non-zero wins over the viewport's extent. */
    predicate ClipSet()
    {
      options.clipSize.Some? && options.clipSize.value != 0.0
    }

    function ClipSize(): (clip: real)
      reads this`contextSize
      ensures ClipSet() ==> clip == options.clipSize.value
      ensures !ClipSet() ==> clip == ContextExtent()
    {
      if ClipSet() then options.clipSize.value else ContextExtent()
    }

    /** While touched, the velocity of the last touch sample; otherwise the particle's. */
    function GetVelocity(): (v: Option<real>)
      reads this`touchCount, this`touchVelocity, particle`vel
      ensures touchCount == 0 ==> v == Some(particle.vel)
      ensures touchCount != 0 ==> v == touchVelocity
    {
      if touchCount != 0 then touchVelocity else Some(particle.vel)
    }

    /**
     * Without a page, the particle position; with one, the position relative to that page's
     * recorded offset, corrected by the shifts since the render that recorded it.
     */
    function GetPosition(page: Option<nat>): (r: Option<real>)
      reads this`offsets, this`offsetDifferential, particle`pos
      ensures page.None? ==> r == Some(particle.pos)
      ensures page.Some? ==> (r.Some? <==> page.value in offsets)
    {
      match page
      case None => Some(particle.pos)
      case Some(j) => if j in offsets then Some(particle.pos - offsets[j] + offsetDifferential) else None
    }

    /** The particle's position and velocity. */
    ghost function Motion(): (real, real)
      reads particle
    {
      (particle.pos, particle.vel)
    }

    /** The touch tracking state and the attached forces. */
    ghost function TouchState(): (nat, bool, set<Force>, Option<real>, bool)
      reads this`touchCount, this`springAttached, this`forces, this`touchVelocity, this`earlyEnd
    {
      (touchCount, springAttached, forces, touchVelocity, earlyEnd)
    }

    /** The spring's anchor, period and damping. */
    ghost function SpringState(): (real, real, real)
      reads this`springPosition, this`springPeriod, this`springDamping
    {
      (springPosition, springPeriod, springDamping)
    }

    /** Everything a page step may change. */
    ghost function PageState(): (Option<nat>, (real, real, real), bool, set<Force>, real, real)
      reads this`node, this`springPosition, this`springPeriod, this`springDamping, this`springAttached
      reads this`forces, this`offsetDifferential, particle`pos
    {
      (node, SpringState(), springAttached, forces, offsetDifferential, particle.pos)
    }

    /** The state a touch start leaves. */
    ghost predicate Grabbed(e: SyncEvent)
      reads this`touchCount, this`forces, this`springAttached, this`touchVelocity, this`earlyEnd, particle`vel
    {
      && touchCount == CountOr(e.count, 1)
      && forces == {} && !springAttached
      && particle.vel == 0.0 && touchVelocity == Some(0.0) && !earlyEnd
    }

    /** The state a final touch end leaves: exactly one of the spring or drag+friction, clamped velocity. */
    ghost predicate Released(e: SyncEvent)
      reads this`springAttached, this`onEdge, this`forces, this`touchVelocity, particle`vel
    {
      && springAttached == (onEdge != 0)
      && forces == (if onEdge != 0 then {Spring} else {Drag, Friction})
      && particle.vel == ClampSpeed(-e.v, ReleaseLimit(options.speedLimit, options.edgeGrip, e.slip))
      && touchVelocity.None?
    }

    /** The page spring: anchored at the current page's start, with the pagination period and damping. */
    ghost predicate PageSpringAttached()
      reads this`springAttached, this`springPosition, this`springPeriod, this`springDamping
    {
      springAttached && springPosition == 0.0
      && springPeriod == options.pagePeriod && springDamping == options.pageDamp
    }

    /**
     * A scroller with no pages yet, configured by `opts` (`DefaultOptions` with the caller's
     * overrides) in a window of the given inner size.
     */
    constructor (opts: Options, innerWidth: real, innerHeight: real)
      ensures Valid() && fresh(particle)
      ensures options == opts
      ensures margin == (if opts.margin.Some? then opts.margin.value else 0.5 * Max(innerWidth, innerHeight))
      ensures pages == [] && node.None? && lastFrameNode.None? && contextSize == (innerWidth, innerHeight)
      ensures particle.pos == 0.0 && particle.vel == 0.0 && forces == {} && !springAttached
      ensures springPosition == 0.0 && springPeriod == opts.edgePeriod && springDamping == opts.edgeDamp
      ensures touchCount == 0 && touchVelocity.None? && !earlyEnd && onEdge == 0
      ensures masterOffset == 0.0 && offsetDifferential == 0.0 && offsets == map[] && inputScale == 1.0
    {
      options := opts;
      margin := if opts.margin.Some? then opts.margin.value else 0.5 * Max(innerWidth, innerHeight);
      particle := new Particle();
      pages := [];
      node := None;
      lastFrameNode := None;
      contextSize := (innerWidth, innerHeight);
      forces := {};
      springAttached := false;
      springPosition := 0.0;
      springPeriod := opts.edgePeriod;
      springDamping := opts.edgeDamp;
      touchCount := 0;
      touchVelocity := None;
      earlyEnd := false;
      onEdge := 0;
      masterOffset := 0.0;
      offsetDifferential := 0.0;
      offsets := map[];
      inputScale := 1.0;
    }

    /** Makes `start` of the given page sequence the current node. */
    method SequenceFrom(newPages: seq<Option<real>>, start: nat)
      requires Valid() && start < |newPages|
      modifies this`pages, this`node, this`lastFrameNode
      ensures Valid()
      ensures pages == newPages && node == Some(start) && lastFrameNode == Some(start)
    {
      pages := newPages;
      node := Some(start);
      lastFrameNode := Some(start);
    }

    method DetachAgents()
      requires Valid()
      modifies this`springAttached, this`forces
      ensures Valid()
      ensures !springAttached && forces == {}
    {
      springAttached := false;
      forces := {};
    }

    method AttachAgents()
      requires forces == {}
      modifies this`forces
      ensures forces == if springAttached then {Spring} else {Drag, Friction}
    {
      if springAttached {
        forces := forces + {Spring};
      } else {
        forces := forces + {Drag, Friction};
      }
    }

    method HandleStart(e: SyncEvent)
      requires Valid()
      modifies this`touchCount, this`springAttached, this`forces, this`touchVelocity, this`earlyEnd, particle`vel
      ensures Valid() && Grabbed(e)
    {
      touchCount := CountOr(e.count, 1);
      DetachAgents();
      particle.vel := 0.0;
      touchVelocity := Some(0.0);
      earlyEnd := false;
    }

    method HandleEnd(e: SyncEvent)
      requires Valid()
      modifies this`touchCount, this`springAttached, this`forces, this`touchVelocity, particle`vel
      ensures Valid()
      ensures touchCount == CountOr(e.count, 0)
      ensures touchCount == 0 ==> Released(e)
      ensures touchCount == 0 ==> (Spring in forces) != (Drag in forces)
      ensures touchCount != 0 ==>
        && springAttached == old(springAttached) && forces == old(forces)
        && touchVelocity == old(touchVelocity) && particle.vel == old(particle.vel)
    {
      touchCount := CountOr(e.count, 0);
      if touchCount == 0 {
        DetachAgents();
        if onEdge != 0 {
          springAttached := true;
        }
        AttachAgents();
        var vel := -e.v;
        var speedLimit := options.speedLimit;
        if e.slip {
          speedLimit := speedLimit * options.edgeGrip;
        }
        assert speedLimit == ReleaseLimit(options.speedLimit, options.edgeGrip, e.slip);
        if vel < -speedLimit {
          vel := -speedLimit;
        } else if vel > speedLimit {
          vel := speedLimit;
        }
        assert vel == ClampSpeed(-e.v, speedLimit);
        particle.vel := vel;
        touchVelocity := None;
      }
    }

    /** A slipping sample that pushes further into the edge the scroller is on. */
    predicate PushesIntoEdge(e: SyncEvent)
      reads this`onEdge
    {
      onEdge != 0 && e.slip && ((-e.v < 0.0 && onEdge < 0) || (-e.v > 0.0 && onEdge > 0))
    }

    /** After an early end, a slipping sample pulling away from the edge faster than the particle moves. */
    predicate Resumes(e: SyncEvent)
      reads this`onEdge, this`earlyEnd, particle`vel
    {
      onEdge != 0 && e.slip && !PushesIntoEdge(e) && earlyEnd && Abs(-e.v) > Abs(particle.vel)
    }

    method HandleMove(e: SyncEvent)
      requires Valid()
      modifies this`touchCount, this`springAttached, this`forces, this`touchVelocity, this`earlyEnd, particle
      ensures Valid()
      // pushing into the edge ends the touch early, once
      ensures PushesIntoEdge(e) && !old(earlyEnd) ==>
        && earlyEnd && particle.pos == old(particle.pos)
        && touchCount == CountOr(e.count, 0)
        && (touchCount == 0 ==> Released(e))
        && (touchCount != 0 ==>
              && springAttached == old(springAttached) && forces == old(forces)
              && touchVelocity == old(touchVelocity) && particle.vel == old(particle.vel))
      ensures PushesIntoEdge(e) && old(earlyEnd) ==> TouchState() == old(TouchState()) && Motion() == old(Motion())
      // pulling away fast enough restarts the touch and tracks its velocity
      ensures old(Resumes(e)) ==>
        && touchCount == CountOr(e.count, 1) && forces == {} && !springAttached && !earlyEnd
        && touchVelocity == Some(-e.v) && particle.vel == -e.v && particle.pos == old(particle.pos)
      // otherwise the sample is tracked unless the touch ended early
      ensures !PushesIntoEdge(e) && !old(Resumes(e)) ==>
        && touchCount == old(touchCount) && forces == old(forces)
        && springAttached == old(springAttached) && earlyEnd == old(earlyEnd)
        && (old(earlyEnd) ==> touchVelocity == old(touchVelocity) && Motion() == old(Motion()))
        && (!old(earlyEnd) ==>
              && touchVelocity == Some(-e.v)
              && (e.slip ==> particle.vel == -e.v && particle.pos == old(particle.pos))
              && (!e.slip ==> particle.pos == -e.p && particle.vel == old(particle.vel)))
    {
      var pos := -e.p;
      var vel := -e.v;
      if onEdge != 0 && e.slip {
        if (vel < 0.0 && onEdge < 0) || (vel > 0.0 && onEdge > 0) {
          if !earlyEnd {
            HandleEnd(e);
            earlyEnd := true;
          }
        } else if earlyEnd && Abs(vel) > Abs(particle.vel) {
          HandleStart(e);
        }
      }
      if earlyEnd {
        return;
      }
      touchVelocity := Some(vel);
      if e.slip {
        particle.vel := vel;
      } else {
        particle.pos := pos;
      }
    }

    /** Moves the origin of the particle coordinates; the spring anchor moves with it. */
    method ShiftOrigin(amount: real)
      modifies this`springPosition, this`offsetDifferential, particle`pos
      ensures springPosition == old(springPosition) + amount
      ensures offsetDifferential == old(offsetDifferential) - amount
      ensures particle.pos == old(particle.pos) + amount
    {
      springPosition := springPosition + amount;
      offsetDifferential := offsetDifferential - amount;
      particle.pos := particle.pos + amount;
    }

    /** Anchors the spring; without parameters it takes the edge period and damping. */
    method SetSpring(position: real, parameters: Option<(real, real)>)
      modifies this`springPosition, this`springPeriod, this`springDamping
      ensures springPosition == position
      ensures parameters.Some? ==> (springPeriod, springDamping) == parameters.value
      ensures parameters.None? ==> springPeriod == options.edgePeriod && springDamping == options.edgeDamp
    {
      springPosition := position;
      springPeriod := if parameters.Some? then parameters.value.0 else options.edgePeriod;
      springDamping := if parameters.Some? then parameters.value.1 else options.edgeDamp;
    }

    method AttachPageSpring()
      requires Valid()
      modifies this`springPosition, this`springPeriod, this`springDamping, this`springAttached, this`forces
      ensures Valid() && PageSpringAttached()
      ensures forces == old(forces) + {Spring}
    {
      SetSpring(0.0, Some((options.pagePeriod, options.pageDamp)));
      if !springAttached {
        springAttached := true;
        forces := forces + {Spring};
      }
    }

    /**
     * The backward loop of re-homing: while the position is before the current page, make the
     * previous page current and move the origin back by its extent; with no previous page, stop
     * at the start edge.
     */
    method RehomeBack() returns (atEdge: bool)
      requires node.Some? && node.value < |pages|
      modifies this`node, this`springPosition, this`offsetDifferential, this`masterOffset, particle`pos
      ensures var h := RehomeBackward(Ext(), old(node).value, old(particle.pos));
              node == Some(h.node) && particle.pos == h.pos && atEdge == h.atEdge
      ensures masterOffset + particle.pos == old(masterOffset + particle.pos)
      ensures springPosition - particle.pos == old(springPosition - particle.pos)
      ensures offsetDifferential + particle.pos == old(offsetDifferential + particle.pos)
    {
      var ext := Ext();
      var n := node.value;
      atEdge := false;
      ghost var back := RehomeBackward(ext, n, particle.pos);
      while !atEdge && particle.pos < 0.0
        invariant n < |ext| && node == Some(n)
        invariant !atEdge ==> RehomeBackward(ext, n, particle.pos) == back
        invariant atEdge ==> back == Home(n, particle.pos, true)
        invariant masterOffset + particle.pos == old(masterOffset + particle.pos)
        invariant springPosition - particle.pos == old(springPosition - particle.pos)
        invariant offsetDifferential + particle.pos == old(offsetDifferential + particle.pos)
        decreases n + (if atEdge then 0 else 1)
      {
        if n > 0 {
          var prevSize := ext[n - 1];
          ShiftOrigin(prevSize);
          masterOffset := masterOffset - prevSize;
          n := n - 1;
          node := Some(n);
        } else {
          atEdge := true;
        }
      }
    }

    /**
     * The forward loop of re-homing: while the position is at or past the end of the current
     * page, move the origin forward by its extent and make the next page current; with no next
     * page, stop at the end edge.
     */
    method RehomeForth() returns (atEdge: bool)
      requires node.Some? && node.value < |pages|
      modifies this`node, this`springPosition, this`offsetDifferential, this`masterOffset, particle`pos
      ensures var h := RehomeForward(Ext(), old(node).value, old(particle.pos));
              node == Some(h.node) && particle.pos == h.pos && atEdge == h.atEdge
      ensures masterOffset + particle.pos == old(masterOffset + particle.pos)
      ensures springPosition - particle.pos == old(springPosition - particle.pos)
      ensures offsetDifferential + particle.pos == old(offsetDifferential + particle.pos)
    {
      var ext := Ext();
      var n := node.value;
      atEdge := false;
      ghost var home := RehomeForward(ext, n, particle.pos);
      var size := ext[n];
      while !atEdge && particle.pos >= size
        invariant n < |ext| && node == Some(n) && size == ext[n]
        invariant !atEdge ==> RehomeForward(ext, n, particle.pos) == home
        invariant atEdge ==> home == Home(n, particle.pos, true)
        invariant masterOffset + particle.pos == old(masterOffset + particle.pos)
        invariant springPosition - particle.pos == old(springPosition - particle.pos)
        invariant offsetDifferential + particle.pos == old(offsetDifferential + particle.pos)
        decreases |ext| - n + (if atEdge then 0 else 1)
      {
        if n + 1 < |ext| {
          ShiftOrigin(-size);
          masterOffset := masterOffset + size;
          n := n + 1;
          node := Some(n);
          size := ext[n];
        } else {
          atEdge := true;
        }
      }
    }

    /**
     * Re-homes the current node: steps back while the position is before the current page and
     * forward while it is past its end, each step moving the origin by a page's extent.
     */
    method RehomeNode()
      requires node.Some? && node.value < |pages|
      modifies this`node, this`springPosition, this`offsetDifferential, this`masterOffset, particle`pos
      ensures var h := Rehome(Ext(), old(node).value, old(particle.pos));
              node == Some(h.node) && particle.pos == h.pos
      ensures masterOffset + particle.pos == old(masterOffset + particle.pos)
      ensures springPosition - particle.pos == old(springPosition - particle.pos)
      ensures offsetDifferential + particle.pos == old(offsetDifferential + particle.pos)
      ensures forall j :: GetPosition(Some(j)) == old(GetPosition(Some(j)))
    {
      var atEdge := RehomeBack();
      if !atEdge {
        atEdge := RehomeForth();
      }
    }

    /**
     * Normalises the state before a frame: re-homes the current node, then forgets a large
     * master offset once the scroller has stopped. The content does not move: the position
     * measured from the first page is the same before and after.
     */
    method NormalizeState()
      requires Valid() && node.Some?
      modifies this`node, this`springPosition, this`offsetDifferential, this`masterOffset, particle`pos
      ensures Valid() && node.Some?
      ensures var h := Rehome(Ext(), old(node).value, old(particle.pos));
              node == Some(h.node) && particle.pos == h.pos
      ensures Origin(Ext(), node.value) + particle.pos == Origin(Ext(), old(node).value) + old(particle.pos)
      ensures springPosition - particle.pos == old(springPosition - particle.pos)
      ensures offsetDifferential + particle.pos == old(offsetDifferential + particle.pos)
      ensures var m := old(masterOffset + particle.pos) - particle.pos;
              masterOffset == if GetVelocity() == Some(0.0) && Abs(m) > ClipSize() + margin then 0.0 else m
      ensures forall j :: GetPosition(Some(j)) == old(GetPosition(Some(j)))
    {
      RehomeKeepsLogical(Ext(), node.value, particle.pos);
      RehomeNode();
      if GetVelocity() == Some(0.0) && Abs(masterOffset) > ClipSize() + margin {
        masterOffset := 0.0;
      }
    }

    /** At an edge change: soften or restore input, pin the spring on entry, settle it on exit. */
    method HandleEdge(edgeDetected: int)
      requires Valid() && -1 <= edgeDetected <= 1
      modifies this`inputScale, this`springAttached, this`forces, this`onEdge, particle
      ensures Valid() && onEdge == edgeDetected
      ensures old(onEdge) == 0 && edgeDetected != 0 ==>
        && inputScale == options.edgeGrip && Motion() == old(Motion())
        && (if touchCount == 0 && !old(springAttached)
            then springAttached && forces == old(forces) + {Spring}
            else springAttached == old(springAttached) && forces == old(forces))
      ensures old(onEdge) != 0 && edgeDetected == 0 ==>
        && inputScale == 1.0
        && (if old(springAttached) && Settled(old(GetVelocity()))
            then particle.vel == 0.0 && particle.pos == springPosition && !springAttached && forces == {Drag, Friction}
            else Motion() == old(Motion()) && springAttached == old(springAttached) && forces == old(forces))
      ensures (old(onEdge) == 0) == (edgeDetected == 0) ==>
        && inputScale == old(inputScale) && Motion() == old(Motion())
        && springAttached == old(springAttached) && forces == old(forces)
    {
      if onEdge == 0 && edgeDetected != 0 {
        inputScale := options.edgeGrip;
        if touchCount == 0 && !springAttached {
          springAttached := true;
          forces := forces + {Spring};
        }
      } else if onEdge != 0 && edgeDetected == 0 {
        inputScale := 1.0;
        if springAttached && Settled(GetVelocity()) {
          particle.vel := 0.0;
          particle.pos := springPosition;
          DetachAgents();
          AttachAgents();
        }
      }
      onEdge := edgeDetected;
    }

    /** Whether pagination acts this frame: released, free, away from the edges and slow enough. */
    predicate PaginationActive()
      reads this`touchCount, this`springAttached, this`onEdge, particle`vel
    {
      onEdge == 0 && PaginationReady()
    }

    /** Pagination's guard apart from the edge flag: released, free, paginated and slow enough. */
    predicate PaginationReady()
      reads this`touchCount, this`springAttached, particle`vel
    {
      touchCount == 0 && !springAttached
      && options.paginated && BelowStopSpeed(Abs(particle.vel), options.pageStopSpeed)
    }

    /** Whether leaving the edge finds the edge spring attached and settled, and swaps it out. */
    ghost predicate LeavesSettledSpring(edgeDetected: int)
      reads this`onEdge, this`springAttached, this`touchCount, this`touchVelocity, particle`vel
    {
      onEdge != 0 && edgeDetected == 0 && springAttached && Settled(GetVelocity())
    }

    /** Whether the pagination decision is to advance from the current node. */
    predicate AdvancesFromNode()
      reads this`node, this`pages, this`contextSize, particle`pos, particle`vel
    {
      node.Some? && node.value < |pages|
      && AdvancesPage(particle.vel, particle.pos, Ext()[node.value], options.pageSwitchSpeed)
    }

    method HandlePagination()
      requires Valid() && node.Some?
      modifies this`node, this`springPosition, this`springPeriod, this`springDamping, this`springAttached
      modifies this`forces, this`offsetDifferential, particle`pos
      ensures Valid() && node.Some?
      ensures node == old(node) || node == Some(old(node).value + 1)
      ensures offsetDifferential == old(offsetDifferential) + if node == old(node) then 0.0 else Ext()[old(node).value]
      ensures !old(PaginationActive()) ==> PageState() == old(PageState())
      ensures old(PaginationActive()) && old(AdvancesFromNode()) && old(node).value + 1 == |pages| ==>
        PageState() == old(PageState())
      ensures old(PaginationActive()) && old(AdvancesFromNode()) && old(node).value + 1 < |pages| ==>
        && node == Some(old(node).value + 1)
        && particle.pos == old(particle.pos) - Ext()[old(node).value]
        && offsetDifferential == old(offsetDifferential) + Ext()[old(node).value]
        && PageSpringAttached() && forces == old(forces) + {Spring}
      ensures old(PaginationActive()) && !old(AdvancesFromNode()) ==>
        && node == old(node) && particle.pos == old(particle.pos)
        && offsetDifferential == old(offsetDifferential)
        && PageSpringAttached() && forces == old(forces) + {Spring}
    {
      if touchCount == 0 && !springAttached && onEdge == 0 {
        var v := GetVelocity().value;
        if options.paginated && BelowStopSpeed(Abs(v), options.pageStopSpeed) {
          var nodeSize := SizeForDir(pages[node.value], ContextExtent());
          var velSwitch := Abs(v) > options.pageSwitchSpeed;
          var velNext := v > 0.0;
          var posNext := particle.pos > 0.5 * nodeSize;
          if (velSwitch && velNext) || (!velSwitch && posNext) {
            var _ := GoToNextPage();
          } else {
            AttachPageSpring();
          }
        }
      }
    }

    /** Steps forward one page and springs to its start; nothing happens without a next page. */
    method GoToNextPage() returns (next: Option<nat>)
      requires Valid()
      modifies this`node, this`springPosition, this`springPeriod, this`springDamping, this`springAttached
      modifies this`forces, this`offsetDifferential, particle`pos
      ensures Valid()
      ensures next.None? <==> old(node).None? || old(node).value + 1 == |pages|
      ensures next.None? ==> PageState() == old(PageState())
      ensures next.Some? ==>
        && next == node == Some(old(node).value + 1)
        && particle.pos == old(particle.pos) - Ext()[old(node).value]
        && offsetDifferential == old(offsetDifferential) + Ext()[old(node).value]
        && PageSpringAttached() && forces == old(forces) + {Spring}
      ensures next.Some? ==> forall j :: 0 <= j <= |pages| ==>
        Offset(Ext(), node.value, j) - particle.pos == Offset(Ext(), old(node).value, j) - old(particle.pos)
      ensures forall j :: GetPosition(Some(j)) == old(GetPosition(Some(j)))
    {
      if node.None? {
        return None;
      }
      var n := node.value;
      if n + 1 < |pages| {
        var positionModification := SizeForDir(pages[n], ContextExtent());
        node := Some(n + 1);
        springPosition := springPosition + positionModification;
        ShiftOrigin(-positionModification);
        AttachPageSpring();
        forall j | 0 <= j <= |pages|
          ensures Offset(Ext(), n + 1, j) - particle.pos == Offset(Ext(), n, j) - old(particle.pos)
        {
          NextPageKeepsView(Ext(), n, old(particle.pos), j);
        }
        next := node;
      } else {
        next := None;
      }
    }

    /**
     * Steps back one page and springs to its start; nothing happens without a previous page.
     * The origin moves by the extent of the page stepped to, so that no page moves.
     */
    method GoToPreviousPage() returns (prev: Option<nat>)
      requires Valid()
      modifies this`node, this`springPosition, this`springPeriod, this`springDamping, this`springAttached
      modifies this`forces, this`offsetDifferential, particle`pos
      ensures Valid()
      ensures prev.None? <==> old(node).None? || old(node).value == 0
      ensures prev.None? ==> PageState() == old(PageState())
      ensures prev.Some? ==>
        && prev == node == Some(old(node).value - 1)
        && particle.pos == old(particle.pos) + Ext()[old(node).value - 1]
        && offsetDifferential == old(offsetDifferential) - Ext()[old(node).value - 1]
        && PageSpringAttached() && forces == old(forces) + {Spring}
      ensures prev.Some? ==> forall j :: 0 <= j <= |pages| ==>
        Offset(Ext(), node.value, j) - particle.pos == Offset(Ext(), old(node).value, j) - old(particle.pos)
      ensures forall j :: GetPosition(Some(j)) == old(GetPosition(Some(j)))
    {
      if node.None? {
        return None;
      }
      var n := node.value;
      if n > 0 {
        var positionModification := SizeForDir(pages[n - 1], ContextExtent());
        node := Some(n - 1);
        springPosition := springPosition - positionModification;
        ShiftOrigin(positionModification);
        AttachPageSpring();
        forall j | 0 <= j <= |pages|
          ensures Offset(Ext(), n - 1, j) - particle.pos == Offset(Ext(), n, j) - old(particle.pos)
        {
          PreviousPageKeepsView(Ext(), n, old(particle.pos), j);
        }
        prev := node;
      } else {
        prev := None;
      }
    }

    /**
     * The per-frame commit: on a viewport change (without a fixed clip size) forget the edge and
     * take the new size, then re-home; returns the translation applied to the whole scroller.
     */
    method Commit(width: real, height: real) returns (scroll: real)
      requires Valid() && node.Some?
      modifies this`onEdge, this`contextSize, this`node, this`springPosition, this`offsetDifferential
      modifies this`masterOffset, particle`pos
      ensures Valid() && node.Some?
      ensures !ClipSet() && (width, height) != old(contextSize) ==> contextSize == (width, height) && onEdge == 0
      ensures ClipSet() || (width, height) == old(contextSize) ==> contextSize == old(contextSize) && onEdge == old(onEdge)
      ensures var h := Rehome(Ext(), old(node).value, old(particle.pos));
              node == Some(h.node) && particle.pos == h.pos
      ensures Origin(Ext(), node.value) + particle.pos == Origin(Ext(), old(node).value) + old(particle.pos)
      ensures springPosition - particle.pos == old(springPosition - particle.pos)
      ensures offsetDifferential + particle.pos == old(offsetDifferential + particle.pos)
      ensures var m := old(masterOffset + particle.pos) - particle.pos;
              masterOffset == if GetVelocity() == Some(0.0) && Abs(m) > ClipSize() + margin then 0.0 else m
      ensures forall j :: GetPosition(Some(j)) == old(GetPosition(Some(j)))
      // the translation is kept unless the master offset was reset
      ensures scroll == -old(particle.pos + masterOffset) || (masterOffset == 0.0 && scroll == -particle.pos)
    {
      if !ClipSet() && (width, height) != contextSize {
        onEdge := 0;
        contextSize := (width, height);
      }
      NormalizeState();
      scroll := -(particle.pos + masterOffset);
    }

    /**
     * The spring pins of a render, in the order of its walks: unless already on an edge, the end
     * edge anchors the spring so that the end of the content meets the end of the clip, then the
     * start edge anchors it at the start of the first page.
     */
    method PinEdgeSpring(endEdge: bool, startEdge: bool, endAnchor: real)
      modifies this`springPosition, this`springPeriod, this`springDamping
      ensures onEdge == 0 && startEdge ==>
        springPosition == 0.0 && springPeriod == options.edgePeriod && springDamping == options.edgeDamp
      ensures onEdge == 0 && endEdge && !startEdge ==>
        springPosition == endAnchor && springPeriod == options.edgePeriod && springDamping == options.edgeDamp
      ensures onEdge != 0 || (!endEdge && !startEdge) ==> SpringState() == old(SpringState())
    {
      if endEdge && onEdge == 0 {
        SetSpring(endAnchor, None);
      }
      if startEdge && onEdge == 0 {
        SetSpring(0.0, None);
      }
    }

    /**
     * The window part of a render: walk forward then backward from the current node, pin the
     * spring at an edge reached while not already on one, and record the offsets of the pages
     * within reach of the position; returns the placed pages and the edge detected.
     */
    method PlaceWindow() returns (placed: seq<Placement>, edgeDetected: int)
      requires Valid() && node.Some?
      modifies this`springPosition, this`springPeriod, this`springDamping, this`offsetDifferential, this`offsets
      ensures Valid()
      ensures RenderedWindow(Ext(), node.value, particle.pos, ClipSize(), margin, masterOffset)
              == Window(placed, offsets, edgeDetected)
      ensures offsetDifferential == 0.0
      ensures onEdge == 0 && edgeDetected == -1 ==>
        springPosition == 0.0 && springPeriod == options.edgePeriod && springDamping == options.edgeDamp
      ensures onEdge == 0 && edgeDetected == 1 ==>
        && springPosition == Offset(Ext(), node.value, |pages|) - ClipSize()
        && springPeriod == options.edgePeriod && springDamping == options.edgeDamp
      ensures onEdge != 0 || edgeDetected == 0 ==> SpringState() == old(SpringState())
    {
      var ext := Ext();
      var n := node.value;
      var clip := ClipSize();
      var w, endEdge := WalkWindow(ext, n, particle.pos, clip, margin, masterOffset);
      PinEdgeSpring(endEdge, w.edge == -1, Offset(ext, n, |ext|) - clip);
      placed := w.placed;
      edgeDetected := w.edge;
      offsetDifferential := 0.0;
      offsets := w.offsets;
    }

    /**
     * One render: place the window, run the edge state machine and the pagination decision,
     * and report whether the current node differs from the last frame's.
     */
    method InnerRender() returns (placed: seq<Placement>, pageChange: bool)
      requires Valid() && node.Some?
      modifies this`springPosition, this`springPeriod, this`springDamping, this`offsetDifferential
      modifies this`offsets, this`inputScale, this`springAttached, this`forces, this`onEdge
      modifies this`node, this`lastFrameNode, particle
      ensures Valid() && node.Some?
      ensures RenderedWindow(Ext(), old(node).value, old(particle.pos), ClipSize(), margin, masterOffset)
              == Window(placed, offsets, onEdge)
      ensures pageChange <==> options.paginated && old(lastFrameNode) != node
      ensures lastFrameNode == if pageChange then node else old(lastFrameNode)
    {
      var edgeDetected;
      placed, edgeDetected := PlaceWindow();
      Settle(edgeDetected);
      pageChange := ReportPageChange();
    }

    /** The state machines a render runs after its walks: the edge change, then pagination. */
    method Settle(edgeDetected: int)
      requires Valid() && node.Some? && -1 <= edgeDetected <= 1
      modifies this`springPosition, this`springPeriod, this`springDamping, this`offsetDifferential
      modifies this`inputScale, this`springAttached, this`forces, this`onEdge, this`node, particle
      ensures Valid() && node.Some? && onEdge == edgeDetected
      ensures node == old(node) || node == Some(old(node).value + 1)
      ensures offsetDifferential == old(offsetDifferential) + if node == old(node) then 0.0 else Ext()[old(node).value]
      // the input scale follows the edge change
      ensures inputScale ==
        if old(onEdge) == 0 && edgeDetected != 0 then options.edgeGrip
        else if old(onEdge) != 0 && edgeDetected == 0 then 1.0
        else old(inputScale)
      // on an edge pagination stays off: entering attaches the edge spring when released and free
      ensures edgeDetected != 0 ==>
        && Motion() == old(Motion()) && node == old(node) && SpringState() == old(SpringState())
        && offsetDifferential == old(offsetDifferential)
        && (if old(onEdge) == 0 && touchCount == 0 && !old(springAttached)
            then springAttached && forces == old(forces) + {Spring}
            else springAttached == old(springAttached) && forces == old(forces))
      // off the edges, unless a settled edge spring is swapped out, pagination acts on the old state
      ensures edgeDetected == 0 && !old(LeavesSettledSpring(edgeDetected)) ==>
        && particle.vel == old(particle.vel)
        && (!old(PaginationReady()) ==> PageState() == old(PageState()))
        && (old(PaginationReady()) && old(AdvancesFromNode()) && old(node).value + 1 == |pages| ==>
              PageState() == old(PageState()))
        && (old(PaginationReady()) && old(AdvancesFromNode()) && old(node).value + 1 < |pages| ==>
              && node == Some(old(node).value + 1)
              && particle.pos == old(particle.pos) - Ext()[old(node).value]
              && PageSpringAttached() && forces == old(forces) + {Spring})
        && (old(PaginationReady()) && !old(AdvancesFromNode()) ==>
              && node == old(node) && particle.pos == old(particle.pos)
              && PageSpringAttached() && forces == old(forces) + {Spring})
      // a settled edge spring stops the particle at its anchor, then pagination decides at rest
      ensures old(LeavesSettledSpring(edgeDetected)) ==>
        && particle.vel == 0.0 && Drag in forces && Friction in forces
        && particle.pos == old(springPosition) - (if node == old(node) then 0.0 else Ext()[old(node).value])
        && (node != old(node) <==>
              && old(touchCount) == 0 && options.paginated && BelowStopSpeed(0.0, options.pageStopSpeed)
              && AdvancesPage(0.0, old(springPosition), Ext()[old(node).value], options.pageSwitchSpeed)
              && old(node).value + 1 < |pages|)
      // ... and the page spring joins drag and friction unless pagination is off or has no next page
      ensures old(LeavesSettledSpring(edgeDetected)) ==>
        var paging := old(touchCount) == 0 && options.paginated && BelowStopSpeed(0.0, options.pageStopSpeed)
          && !(AdvancesPage(0.0, old(springPosition), Ext()[old(node).value], options.pageSwitchSpeed)
               && old(node).value + 1 == |pages|);
        if paging then PageSpringAttached() && forces == {Drag, Friction, Spring}
        else !springAttached && forces == {Drag, Friction} && SpringState() == old(SpringState())
    {
      HandleEdge(edgeDetected);
      HandlePagination();
    }

    /** On a paginated scroller, reports a current node other than the last frame's and remembers it. */
    method ReportPageChange() returns (pageChange: bool)
      requires Valid()
      modifies this`lastFrameNode
      ensures Valid()
      ensures pageChange <==> options.paginated && old(lastFrameNode) != node
      ensures lastFrameNode == if pageChange then node else old(lastFrameNode)
    {
      pageChange := options.paginated && lastFrameNode != node;
      if pageChange {
        lastFrameNode := node;
      }
    }
  }
}
