/**
 * Arithmetic over the page sequence the scroller walks: where each page starts, the offsets
 * the windower records relative to the current page, the window the windower visits, and the
 * re-homing of the current page that keeps the particle position bounded.
 *
 * A page sequence is given by the extents of its pages along the scroll axis, `ext`; page
 * indices stand for the nodes of the doubly-linked sequence (page i-1 is the previous node of
 * page i, page i+1 its next node).
 */
module PageGeometry {
  import opened Wrappers

  /** Extent of a page along the scroll axis; a page that reports no size takes the viewport's. */
  function SizeForDir(size: Option<real>, contextExtent: real): real
  {
    match size
    case Some(e) => e
    case None => contextExtent
  }

  /** Every page that reports a size reports a positive one. */
  predicate MeasuredPositive(pages: seq<Option<real>>)
  {
    forall i :: 0 <= i < |pages| && pages[i].Some? ==> pages[i].value > 0.0
  }

  predicate Positive(ext: seq<real>)
  {
    forall i :: 0 <= i < |ext| ==> ext[i] > 0.0
  }

  /** The extents of all pages, with the viewport's extent standing in for unmeasured pages. */
  function Extents(pages: seq<Option<real>>, contextExtent: real): (ext: seq<real>)
    ensures |ext| == |pages|
    ensures MeasuredPositive(pages) && contextExtent > 0.0 ==> Positive(ext)
  {
    seq(|pages|, i requires 0 <= i < |pages| => SizeForDir(pages[i], contextExtent))
  }

  /** Where page i begins, measured from the start of the whole sequence. */
  function Origin(ext: seq<real>, i: nat): real
    requires i <= |ext|
  {
    if i == 0 then 0.0 else Origin(ext, i - 1) + ext[i - 1]
  }

  /** Offset of page j from the start of page `node`: what the windower records for page j. */
  function Offset(ext: seq<real>, node: nat, j: nat): real
    requires node <= |ext| && j <= |ext|
  {
    Origin(ext, j) - Origin(ext, node)
  }

  lemma {:induction false} OriginIncreasing(ext: seq<real>, i: nat, j: nat)
    requires Positive(ext) && i < j <= |ext|
    ensures Origin(ext, i) < Origin(ext, j)
  {
    if i < j - 1 {
      OriginIncreasing(ext, i, j - 1);
    }
  }

  lemma OriginMonotone(ext: seq<real>, i: nat, j: nat)
    requires Positive(ext) && i <= j <= |ext|
    ensures Origin(ext, i) <= Origin(ext, j)
  {
    if i < j {
      OriginIncreasing(ext, i, j);
    }
  }

  // ---------------------------------------------------------------------------------------
  // The window

  /**
   * The forward walk of the windower, from page j on: the first page at or after j that is
   * past the end of the sequence, or that starts `limit` or more ahead of `pos`.
   */
  function ForwardEnd(ext: seq<real>, node: nat, j: nat, pos: real, limit: real): (e: nat)
    requires node <= j <= |ext|
    ensures j <= e <= |ext|
    decreases |ext| - j
  {
    if j == |ext| || Offset(ext, node, j) - pos >= limit then j
    else ForwardEnd(ext, node, j + 1, pos, limit)
  }

  /** The forward walk takes every page before its end, and stops at a page out of reach. */
  lemma {:induction false} ForwardEndBounds(ext: seq<real>, node: nat, j: nat, pos: real, limit: real)
    requires node <= j <= |ext|
    ensures var e := ForwardEnd(ext, node, j, pos, limit);
            && (forall k :: j <= k < e ==> Offset(ext, node, k) - pos < limit)
            && (e < |ext| ==> Offset(ext, node, e) - pos >= limit)
    decreases |ext| - j
  {
    if !(j == |ext| || Offset(ext, node, j) - pos >= limit) {
      ForwardEndBounds(ext, node, j + 1, pos, limit);
    }
  }

  /**
   * The backward walk of the windower, with pages k..node-1 already taken: the lowest page it
   * takes, where it keeps taking the previous page while that page's offset from `pos` is
   * greater than -limit.
   */
  function BackwardStart(ext: seq<real>, node: nat, k: nat, pos: real, limit: real): (b: nat)
    requires k <= node <= |ext|
    ensures b <= k
    decreases k
  {
    if k == 0 || Offset(ext, node, k - 1) - pos <= -limit then k
    else BackwardStart(ext, node, k - 1, pos, limit)
  }

  /** The backward walk takes every page from its start on, and stops below a page out of reach. */
  lemma {:induction false} BackwardStartBounds(ext: seq<real>, node: nat, k: nat, pos: real, limit: real)
    requires k <= node <= |ext|
    ensures var b := BackwardStart(ext, node, k, pos, limit);
            && (forall m :: b <= m < k ==> Offset(ext, node, m) - pos > -limit)
            && (b > 0 ==> Offset(ext, node, b - 1) - pos <= -limit)
    decreases k
  {
    if !(k == 0 || Offset(ext, node, k - 1) - pos <= -limit) {
      BackwardStartBounds(ext, node, k - 1, pos, limit);
    }
  }

  /** Whether page m lies within `limit` of the position, on its side of the current page. */
  predicate InReach(ext: seq<real>, node: nat, m: nat, pos: real, limit: real)
    requires node <= |ext| && m <= |ext|
  {
    if m >= node then Offset(ext, node, m) - pos < limit
    else Offset(ext, node, m) - pos > -limit
  }

  /** The windower visits exactly the pages within `limit` of the position. */
  lemma WindowExact(ext: seq<real>, node: nat, pos: real, limit: real, m: nat)
    requires Positive(ext) && node < |ext| && m < |ext|
    ensures BackwardStart(ext, node, node, pos, limit) <= m < ForwardEnd(ext, node, node, pos, limit)
            <==> InReach(ext, node, m, pos, limit)
  {
    var e := ForwardEnd(ext, node, node, pos, limit);
    var b := BackwardStart(ext, node, node, pos, limit);
    ForwardEndBounds(ext, node, node, pos, limit);
    BackwardStartBounds(ext, node, node, pos, limit);
    if m >= node && m >= e {
      OriginMonotone(ext, e, m);
    }
    if m < node && m < b {
      OriginMonotone(ext, m, b - 1);
    }
  }

  /** Offsets the windower records: cumulative extents, 0 at the current page. */
  function OffsetTable(ext: seq<real>, node: nat, lo: nat, hi: nat): map<nat, real>
    requires lo <= hi <= |ext| && node <= |ext|
  {
    map j: nat | lo <= j < hi :: Offset(ext, node, j)
  }

  /** Forward offsets are non-negative, zero only at the current page; backward ones negative. */
  lemma OffsetSigns(ext: seq<real>, node: nat, j: nat)
    requires Positive(ext) && node <= |ext| && j <= |ext|
    ensures j == node ==> Offset(ext, node, j) == 0.0
    ensures j > node ==> Offset(ext, node, j) > 0.0
    ensures j < node ==> Offset(ext, node, j) < 0.0
  {
    if j > node {
      OriginIncreasing(ext, node, j);
    } else if j < node {
      OriginIncreasing(ext, j, node);
    }
  }

  /** Neighbouring offsets differ by exactly the earlier page's extent. */
  lemma OffsetStep(ext: seq<real>, node: nat, j: nat)
    requires node <= |ext| && j < |ext|
    ensures Offset(ext, node, j + 1) == Offset(ext, node, j) + ext[j]
  {
  }

  /** Where the windower places each page it visits ahead of the current page. */
  datatype Placement = Placement(page: nat, offset: real)

  function ForwardPlacements(ext: seq<real>, node: nat, hi: nat, master: real): seq<Placement>
    requires node <= hi <= |ext|
    decreases hi - node
  {
    if hi == node then []
    else ForwardPlacements(ext, node, hi - 1, master) + [Placement(hi - 1, Offset(ext, node, hi - 1) + master)]
  }

  function BackwardPlacements(ext: seq<real>, node: nat, lo: nat, master: real): seq<Placement>
    requires lo <= node <= |ext|
    decreases node - lo
  {
    if lo == node then []
    else BackwardPlacements(ext, node, lo + 1, master) + [Placement(lo, Offset(ext, node, lo) + master)]
  }

  /** The forward placements list pages node, node+1, ... in order, each at its offset. */
  lemma {:induction false} ForwardPlacementsAt(ext: seq<real>, node: nat, hi: nat, master: real, k: nat)
    requires node <= hi <= |ext| && k < hi - node
    ensures |ForwardPlacements(ext, node, hi, master)| == hi - node
    ensures ForwardPlacements(ext, node, hi, master)[k] == Placement(node + k, Offset(ext, node, node + k) + master)
    decreases hi - node
  {
    if k < hi - 1 - node {
      ForwardPlacementsAt(ext, node, hi - 1, master, k);
    } else if hi - 1 > node {
      ForwardPlacementsAt(ext, node, hi - 1, master, 0);
    }
  }

  /** The backward placements list pages node-1, node-2, ... in order, each at its offset. */
  lemma {:induction false} BackwardPlacementsAt(ext: seq<real>, node: nat, lo: nat, master: real, k: nat)
    requires lo <= node <= |ext| && k < node - lo
    ensures |BackwardPlacements(ext, node, lo, master)| == node - lo
    ensures BackwardPlacements(ext, node, lo, master)[k] == Placement(node - 1 - k, Offset(ext, node, node - 1 - k) + master)
    decreases node - lo
  {
    if k < node - 1 - lo {
      BackwardPlacementsAt(ext, node, lo + 1, master, k);
    } else if node - 1 > lo {
      BackwardPlacementsAt(ext, node, lo + 1, master, 0);
    }
  }

  // ---------------------------------------------------------------------------------------
  // Edge detection

  /**
   * The edge the windower reports for a position: -1 when there is no previous page and the
   * position is at or before the start, 1 when the forward walk ran off the end of the sequence
   * with the end no more than a clip size ahead, 0 otherwise.
   */
  function DetectedEdge(ext: seq<real>, node: nat, pos: real, clip: real, margin: real): int
    requires node < |ext|
  {
    if node == 0 && pos <= 0.0 then -1
    else if ForwardEnd(ext, node, node, pos, clip + margin) == |ext| && Offset(ext, node, |ext|) - pos <= clip then 1
    else 0
  }

  /** With a non-negative margin the forward walk reaches the end whenever the end is in view. */
  lemma EndEdgeExact(ext: seq<real>, node: nat, pos: real, clip: real, margin: real)
    requires Positive(ext) && node < |ext| && margin >= 0.0
    ensures (ForwardEnd(ext, node, node, pos, clip + margin) == |ext| && Offset(ext, node, |ext|) - pos <= clip)
            <==> Offset(ext, node, |ext|) - pos <= clip
  {
    var e := ForwardEnd(ext, node, node, pos, clip + margin);
    ForwardEndBounds(ext, node, node, pos, clip + margin);
    if Offset(ext, node, |ext|) - pos <= clip && e < |ext| {
      OriginIncreasing(ext, e, |ext|);
    }
  }

  /** What one render's walks produce: the pages placed, the offsets recorded, the edge seen. */
  datatype Window = Window(placed: seq<Placement>, offsets: map<nat, real>, edge: int)

  /**
   * The window of a render from page `node` at position `pos`: the forward walk's pages, then
   * the backward walk's, both placed relative to `master`; the offsets of every page walked and
   * of the page after the last one walked forward; and the edge detected.
   */
  function RenderedWindow(ext: seq<real>, node: nat, pos: real, clip: real, margin: real, master: real): (w: Window)
    requires node < |ext|
    ensures -1 <= w.edge <= 1
  {
    var fe := ForwardEnd(ext, node, node, pos, clip + margin);
    var bs := BackwardStart(ext, node, node, pos, clip + margin);
    Window(ForwardPlacements(ext, node, fe, master) + BackwardPlacements(ext, node, bs, master),
           OffsetTable(ext, node, bs, if fe < |ext| then fe + 1 else |ext|),
           DetectedEdge(ext, node, pos, clip, margin))
  }

  lemma ForwardPlacementsLength(ext: seq<real>, node: nat, hi: nat, master: real)
    requires node <= hi <= |ext|
    ensures |ForwardPlacements(ext, node, hi, master)| == hi - node
  {
    if hi > node {
      ForwardPlacementsAt(ext, node, hi, master, 0);
    }
  }

  lemma BackwardPlacementsLength(ext: seq<real>, node: nat, lo: nat, master: real)
    requires lo <= node <= |ext|
    ensures |BackwardPlacements(ext, node, lo, master)| == node - lo
  {
    if lo < node {
      BackwardPlacementsAt(ext, node, lo, master, 0);
    }
  }

  /** Every page a render places is within reach, and sits at its offset plus the master offset. */
  lemma WindowPlacesOnlyPagesInReach(ext: seq<real>, node: nat, pos: real, clip: real, margin: real, master: real, k: nat)
    requires Positive(ext) && node < |ext|
    requires k < |RenderedWindow(ext, node, pos, clip, margin, master).placed|
    ensures var p := RenderedWindow(ext, node, pos, clip, margin, master).placed[k];
            && p.page < |ext| && InReach(ext, node, p.page, pos, clip + margin)
            && p.offset == Offset(ext, node, p.page) + master
  {
    var fe := ForwardEnd(ext, node, node, pos, clip + margin);
    var bs := BackwardStart(ext, node, node, pos, clip + margin);
    ForwardPlacementsLength(ext, node, fe, master);
    BackwardPlacementsLength(ext, node, bs, master);
    var f := ForwardPlacements(ext, node, fe, master);
    var b := BackwardPlacements(ext, node, bs, master);
    assert RenderedWindow(ext, node, pos, clip, margin, master).placed == f + b;
    if k < |f| {
      ForwardPlacementsAt(ext, node, fe, master, k);
      WindowExact(ext, node, pos, clip + margin, node + k);
    } else {
      BackwardPlacementsAt(ext, node, bs, master, k - |f|);
      WindowExact(ext, node, pos, clip + margin, node - 1 - (k - |f|));
    }
  }

  /** Every page within reach is placed by a render. */
  lemma WindowPlacesEveryPageInReach(ext: seq<real>, node: nat, pos: real, clip: real, margin: real, master: real, m: nat)
    requires Positive(ext) && node < |ext| && m < |ext| && InReach(ext, node, m, pos, clip + margin)
    ensures var w := RenderedWindow(ext, node, pos, clip, margin, master);
            exists k :: 0 <= k < |w.placed| && w.placed[k].page == m
  {
    var fe := ForwardEnd(ext, node, node, pos, clip + margin);
    var bs := BackwardStart(ext, node, node, pos, clip + margin);
    ForwardPlacementsLength(ext, node, fe, master);
    BackwardPlacementsLength(ext, node, bs, master);
    var f := ForwardPlacements(ext, node, fe, master);
    var b := BackwardPlacements(ext, node, bs, master);
    var w := RenderedWindow(ext, node, pos, clip, margin, master);
    assert w.placed == f + b;
    WindowExact(ext, node, pos, clip + margin, m);
    if m >= node {
      ForwardPlacementsAt(ext, node, fe, master, m - node);
      assert w.placed[m - node].page == m;
    } else {
      BackwardPlacementsAt(ext, node, bs, master, node - 1 - m);
      assert w.placed[|f| + (node - 1 - m)].page == m;
    }
  }

  /**
   * The offsets a render records: 0 for the current page, cumulative extents after it
   * (non-negative) and before it (negative).
   */
  lemma WindowOffsetsSigned(ext: seq<real>, node: nat, pos: real, clip: real, margin: real, master: real, j: nat)
    requires Positive(ext) && node < |ext|
    ensures var w := RenderedWindow(ext, node, pos, clip, margin, master);
            node in w.offsets && w.offsets[node] == 0.0
    ensures var w := RenderedWindow(ext, node, pos, clip, margin, master);
            j in w.offsets ==> j < |ext| && (j >= node ==> w.offsets[j] >= 0.0) && (j < node ==> w.offsets[j] < 0.0)
  {
    if j <= |ext| {
      OffsetSigns(ext, node, j);
    }
  }

  /**
   * The edge a render reports: the start edge exactly when there is no previous page and the
   * position is at or before the start; otherwise the end edge exactly when the end of the
   * content is no more than a clip size ahead of the position.
   */
  lemma WindowEdge(ext: seq<real>, node: nat, pos: real, clip: real, margin: real, master: real)
    requires Positive(ext) && node < |ext| && margin >= 0.0
    ensures var w := RenderedWindow(ext, node, pos, clip, margin, master);
            && (w.edge == -1 <==> node == 0 && pos <= 0.0)
            && (w.edge == 1 <==> !(node == 0 && pos <= 0.0) && Offset(ext, node, |ext|) - pos <= clip)
  {
    EndEdgeExact(ext, node, pos, clip, margin);
  }

  // ---------------------------------------------------------------------------------------
  // Re-homing

  /** The current page and the particle position relative to it; `atEdge` when a walk ran out of pages. */
  datatype Home = Home(node: nat, pos: real, atEdge: bool)

  /** While the position is before the current page, step to the previous page and re-base. */
  function RehomeBackward(ext: seq<real>, node: nat, pos: real): (h: Home)
    requires node < |ext|
    ensures h.node <= node
    ensures !h.atEdge ==> h.pos >= 0.0 && (h.node < node ==> h.pos < ext[h.node])
    ensures h.atEdge ==> h.node == 0 && h.pos < 0.0
    decreases node
  {
    if pos >= 0.0 then Home(node, pos, false)
    else if node == 0 then Home(0, pos, true)
    else RehomeBackward(ext, node - 1, pos + ext[node - 1])
  }

  /** While the position is at or past the end of the current page, step to the next page and re-base. */
  function RehomeForward(ext: seq<real>, node: nat, pos: real): (h: Home)
    requires node < |ext|
    ensures node <= h.node < |ext|
    ensures !h.atEdge ==> h.pos < ext[h.node] && (pos >= 0.0 ==> h.pos >= 0.0)
    ensures h.atEdge ==> h.node == |ext| - 1 && h.pos >= ext[h.node]
    decreases |ext| - node
  {
    if pos < ext[node] then Home(node, pos, false)
    else if node + 1 == |ext| then Home(node, pos, true)
    else RehomeForward(ext, node + 1, pos - ext[node])
  }

  /** The two walks in order: backward first, and forward only when the backward one found a page. */
  function Rehome(ext: seq<real>, node: nat, pos: real): (h: Home)
    requires node < |ext|
    ensures h.node < |ext|
    ensures !h.atEdge ==> 0.0 <= h.pos < ext[h.node]
    ensures h.atEdge ==> (h.node == 0 && h.pos < 0.0) || (h.node == |ext| - 1 && h.pos >= ext[h.node])
  {
    var b := RehomeBackward(ext, node, pos);
    if b.atEdge then b else RehomeForward(ext, b.node, b.pos)
  }

  lemma {:induction false} RehomeBackwardKeepsLogical(ext: seq<real>, node: nat, pos: real)
    requires node < |ext|
    ensures var h := RehomeBackward(ext, node, pos); Origin(ext, h.node) + h.pos == Origin(ext, node) + pos
    decreases node
  {
    if pos < 0.0 && node > 0 {
      RehomeBackwardKeepsLogical(ext, node - 1, pos + ext[node - 1]);
    }
  }

  lemma {:induction false} RehomeForwardKeepsLogical(ext: seq<real>, node: nat, pos: real)
    requires node < |ext|
    ensures var h := RehomeForward(ext, node, pos); Origin(ext, h.node) + h.pos == Origin(ext, node) + pos
    decreases |ext| - node
  {
    if pos >= ext[node] && node + 1 < |ext| {
      RehomeForwardKeepsLogical(ext, node + 1, pos - ext[node]);
    }
  }

  /** Re-homing is a re-parameterisation: the position measured from the start of the sequence is unchanged. */
  lemma RehomeKeepsLogical(ext: seq<real>, node: nat, pos: real)
    requires node < |ext|
    ensures var h := Rehome(ext, node, pos); Origin(ext, h.node) + h.pos == Origin(ext, node) + pos
  {
    RehomeBackwardKeepsLogical(ext, node, pos);
    var b := RehomeBackward(ext, node, pos);
    if !b.atEdge {
      RehomeForwardKeepsLogical(ext, b.node, b.pos);
    }
  }

  /** Hence every page stays where it was relative to the position. */
  lemma RehomeKeepsView(ext: seq<real>, node: nat, pos: real, j: nat)
    requires node < |ext| && j <= |ext|
    ensures var h := Rehome(ext, node, pos); Offset(ext, h.node, j) - h.pos == Offset(ext, node, j) - pos
  {
    RehomeKeepsLogical(ext, node, pos);
  }

  /**
   * When the logical position lies inside the sequence, re-homing finds no edge and lands on the
   * one page that contains it.
   */
  lemma RehomeFindsContainingPage(ext: seq<real>, node: nat, pos: real, i: nat)
    requires Positive(ext) && node < |ext| && i < |ext|
    requires 0.0 <= Origin(ext, node) + pos < Origin(ext, |ext|)
    ensures var h := Rehome(ext, node, pos);
            !h.atEdge && Origin(ext, h.node) <= Origin(ext, node) + pos < Origin(ext, h.node + 1)
    ensures var h := Rehome(ext, node, pos);
            Origin(ext, i) <= Origin(ext, node) + pos < Origin(ext, i + 1) ==> i == h.node
  {
    var h := Rehome(ext, node, pos);
    RehomeKeepsLogical(ext, node, pos);
    if i < h.node {
      OriginMonotone(ext, i + 1, h.node);
    } else if i > h.node {
      OriginMonotone(ext, h.node + 1, i);
    }
  }

  // ---------------------------------------------------------------------------------------
  // Page steps

  /** Stepping to the next page re-bases the position by the departing page's extent: nothing moves. */
  lemma NextPageKeepsView(ext: seq<real>, node: nat, pos: real, j: nat)
    requires node + 1 < |ext| && j <= |ext|
    ensures Offset(ext, node + 1, j) - (pos - ext[node]) == Offset(ext, node, j) - pos
  {
  }

  /** Stepping to the previous page re-bases the position by the arriving page's extent: nothing moves. */
  lemma PreviousPageKeepsView(ext: seq<real>, node: nat, pos: real, j: nat)
    requires 0 < node < |ext| && j <= |ext|
    ensures Offset(ext, node - 1, j) - (pos + ext[node - 1]) == Offset(ext, node, j) - pos
  {
  }

  /**
   * The position a step back to the previous page leaves as the step is written at
   * src/app/PageSwipe.js:417-420: re-based by the extent of the page being left.
   */
  function PreviousPagePosAsWritten(ext: seq<real>, node: nat, pos: real): (r: real)
    requires 0 < node < |ext|
    ensures r - pos == ext[node]
  {
    pos + ext[node]
  }

  /**
   * As written, a step back moves every page by the difference between the extent of the page
   * stepped to and the extent of the page left; only equal extents keep the view still.
   */
  lemma PreviousPageAsWrittenShiftsView(ext: seq<real>, node: nat, pos: real, j: nat)
    requires 0 < node < |ext| && j <= |ext|
    ensures Offset(ext, node - 1, j) - PreviousPagePosAsWritten(ext, node, pos)
            == Offset(ext, node, j) - pos + (ext[node - 1] - ext[node])
  {
  }

  /**
   * With pages of extents 100 and 200, stepping back from page 1 at position 0 as written moves
   * page 1 from offset 0 to offset -100 relative to the position: the view jumps by the
   * difference of the two extents.
   */
  lemma PreviousPageAsWrittenMovesView()
    ensures var ext := [100.0, 200.0];
            Offset(ext, 0, 1) - PreviousPagePosAsWritten(ext, 1, 0.0) == -100.0
    ensures Offset([100.0, 200.0], 1, 1) - 0.0 == 0.0
  {
    var ext := [100.0, 200.0];
    assert Origin(ext, 1) == 100.0;
  }
}
