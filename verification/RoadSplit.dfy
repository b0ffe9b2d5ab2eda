/** A partly closed road split into closed, affected and open pieces, against a definition that
    looks at one edge at a time. Edge i joins coordinates i and i + 1. */
module RoadSplit {
  import opened Options
  import opened Reals

  /** The sub-road of coordinates lo to hi, both included. */
  datatype Piece = Piece(lo: nat, hi: nat)

  /** A stretch between closures, and whether a closure touches its left and its right end. */
  datatype Boundary = Boundary(lo: nat, hi: nat, left: bool, right: bool)

  // ---------------------------------------------------------------------------
  // The definition, edge by edge
  // ---------------------------------------------------------------------------

  /** Both ends of the edge match the route. */
  predicate Closed(matched: seq<bool>, i: int)
  {
    0 <= i && i + 1 < |matched| && matched[i] && matched[i + 1]
  }

  predicate NoneClosed(matched: seq<bool>, lo: int, hi: int)
  {
    forall k :: lo <= k < hi ==> !Closed(matched, k)
  }

  /** No junction at coordinates lo to hi - 1. */
  predicate Clear(junction: seq<bool>, lo: int, hi: int)
  {
    forall k :: lo <= k < hi && 0 <= k < |junction| ==> !junction[k]
  }

  /** Edge i is reached by the closure that ends at coordinate e, on its left. */
  predicate FromLeft(matched: seq<bool>, junction: seq<bool>, i: int, e: int)
  {
    e <= i && Closed(matched, e - 1) && NoneClosed(matched, e, i + 1) && Clear(junction, e + 1, i + 1)
  }

  /** Edge i is reached by the closure that starts at coordinate s, on its right. */
  predicate FromRight(matched: seq<bool>, junction: seq<bool>, i: int, s: int)
  {
    i < s && Closed(matched, s) && NoneClosed(matched, i, s) && Clear(junction, i + 1, s)
  }

  ghost predicate Affected(matched: seq<bool>, junction: seq<bool>, i: int)
  {
    !Closed(matched, i) &&
    ((exists e :: FromLeft(matched, junction, i, e)) || exists s :: FromRight(matched, junction, i, s))
  }

  /** Between the closed edge j and edge i there is no other closed edge, and no junction but perhaps the
      coordinate at which the closure itself ends. */
  ghost predicate ReachesFrom(matched: seq<bool>, junction: seq<bool>, i: int, j: int)
  {
    && 0 <= j && j + 1 < |matched| && matched[j] && matched[j + 1]
    && (forall k :: i < k < j || j < k < i ==> !Closed(matched, k))
    && (forall k :: 0 <= k < |junction| && (i < k < j || j + 1 < k <= i) ==> !junction[k])
  }

  /** The same definition in one line, for both directions at once. */
  lemma AffectedIff(matched: seq<bool>, junction: seq<bool>, i: int)
    requires 0 <= i < |matched| - 1
    ensures Affected(matched, junction, i) <==>
            !(matched[i] && matched[i + 1]) && exists j :: ReachesFrom(matched, junction, i, j)
  {
    if e :| FromLeft(matched, junction, i, e) {
      assert ReachesFrom(matched, junction, i, e - 1);
    }
    if s :| FromRight(matched, junction, i, s) {
      assert ReachesFrom(matched, junction, i, s);
    }
    if j :| ReachesFrom(matched, junction, i, j) {
      if j < i {
        assert !Closed(matched, i) ==> FromLeft(matched, junction, i, j + 1);
      } else {
        assert !Closed(matched, i) ==> FromRight(matched, junction, i, j);
      }
    }
  }

  // ---------------------------------------------------------------------------
  // Lists of pieces
  // ---------------------------------------------------------------------------

  ghost predicate Covers(ps: seq<Piece>, i: int)
  {
    exists k :: 0 <= k < |ps| && ps[k].lo <= i < ps[k].hi
  }

  /** Pieces of at least one edge, from left to right without overlap, within coordinates lo to hi. */
  ghost predicate Within(ps: seq<Piece>, lo: nat, hi: nat)
  {
    && (forall k :: 0 <= k < |ps| ==> lo <= ps[k].lo < ps[k].hi <= hi)
    && (forall j, k :: 0 <= j < k < |ps| ==> ps[j].hi <= ps[k].lo)
  }

  lemma CoversAppend(ps: seq<Piece>, qs: seq<Piece>)
    ensures forall i :: Covers(ps + qs, i) <==> Covers(ps, i) || Covers(qs, i)
  {
    forall i ensures Covers(ps + qs, i) <==> Covers(ps, i) || Covers(qs, i) {
      if k :| 0 <= k < |ps| && ps[k].lo <= i < ps[k].hi {
        assert (ps + qs)[k] == ps[k];
      }
      if k :| 0 <= k < |qs| && qs[k].lo <= i < qs[k].hi {
        assert (ps + qs)[|ps| + k] == qs[k];
      }
    }
  }

  lemma OnePiece(p: Piece)
    ensures forall i :: Covers([p], i) <==> p.lo <= i < p.hi
  {
    forall i | p.lo <= i < p.hi ensures Covers([p], i) {
      assert [p][0].lo <= i < [p][0].hi;
    }
  }

  /** Pieces that follow one another without a gap meet at a junction. */
  ghost predicate MeetAtJunctions(junction: seq<bool>, ps: seq<Piece>)
  {
    forall j, k :: 0 <= j < k < |ps| && ps[j].hi == ps[k].lo ==>
      ps[j].hi < |junction| && junction[ps[j].hi]
  }

  /** No two pieces follow one another without a gap. */
  ghost predicate Apart(ps: seq<Piece>)
  {
    forall j, k :: 0 <= j < k < |ps| ==> ps[j].hi < ps[k].lo
  }

  /** What the split of a road promises: nothing when no edge is closed, otherwise three ordered
      lists that cover the closed, the affected and the remaining edges; the closed and the open pieces
      are as long as they can be, the affected ones are cut exactly at junctions. */
  ghost predicate Split(matched: seq<bool>, junction: seq<bool>, closed: seq<Piece>, affected: seq<Piece>,
                        open: seq<Piece>)
  {
    if NoneClosed(matched, 0, |matched|) then closed == [] && affected == [] && open == []
    else
      && Within(closed, 0, |matched| - 1) && Within(affected, 0, |matched| - 1) && Within(open, 0, |matched| - 1)
      && (forall i :: 0 <= i < |matched| - 1 ==> (Covers(closed, i) <==> Closed(matched, i)))
      && (forall i :: 0 <= i < |matched| - 1 ==> (Covers(affected, i) <==> Affected(matched, junction, i)))
      && (forall i :: 0 <= i < |matched| - 1 ==>
            (Covers(open, i) <==> !Closed(matched, i) && !Affected(matched, junction, i)))
      && (forall p :: p in affected ==> Clear(junction, p.lo + 1, p.hi)) && MeetAtJunctions(junction, affected)
      && Apart(closed) && Apart(open)
  }

  // ---------------------------------------------------------------------------
  // Runs of matched coordinates
  // ---------------------------------------------------------------------------

  /** A maximal run of at least two matched coordinates, ending before n. */
  predicate IsRun(matched: seq<bool>, p: Piece)
  {
    && p.lo < p.hi < |matched|
    && (forall k :: p.lo <= k <= p.hi ==> matched[k])
    && (p.lo > 0 ==> !matched[p.lo - 1])
    && (p.hi + 1 < |matched| ==> !matched[p.hi + 1])
  }

  /** The runs found so far, in order and apart; every closed edge before `upto` is in one. */
  ghost predicate Runs(matched: seq<bool>, runs: seq<Piece>, upto: int)
  {
    && (forall k :: 0 <= k < |runs| ==> IsRun(matched, runs[k]) && runs[k].hi <= upto)
    && (forall j, k :: 0 <= j < k < |runs| ==> runs[j].hi < runs[k].lo)
    && (forall i :: 0 <= i < upto && Closed(matched, i) ==> Covers(runs, i))
  }

  lemma MoreRuns(matched: seq<bool>, runs: seq<Piece>, start: nat, end: nat)
    requires Runs(matched, runs, start) && start <= end < |matched|
    requires forall k :: start <= k <= end ==> matched[k]
    requires start > 0 ==> !matched[start - 1]
    requires end + 1 < |matched| ==> !matched[end + 1]
    ensures start < end ==> Runs(matched, runs + [Piece(start, end)], end + 1)
    ensures start == end ==> Runs(matched, runs, end + 1)
  {
    var p := Piece(start, end);
    CoversAppend(runs, [p]);
    OnePiece(p);
    forall k | 0 <= k < |runs| ensures runs[k].hi < start {
      assert IsRun(matched, runs[k]);
    }
    assert start > 0 ==> !Closed(matched, start - 1);
  }

  lemma RunsFurther(matched: seq<bool>, runs: seq<Piece>, i: nat)
    requires Runs(matched, runs, i) && i < |matched| && !matched[i]
    ensures Runs(matched, runs, i + 1)
  {
  }

  /** The runs before coordinate i, and where the run that reaches it starts. */
  ghost predicate Scanned(matched: seq<bool>, runs: seq<Piece>, start: Option<nat>, i: nat)
    requires i <= |matched|
  {
    match start
    case None => Runs(matched, runs, i) && (i > 0 ==> !matched[i - 1])
    case Some(j) =>
      && j < i && Runs(matched, runs, j) && (j > 0 ==> !matched[j - 1])
      && forall k :: j <= k < i ==> matched[k]
  }

  /** The runs once the one that reaches coordinate i ends there. */
  function Ended(runs: seq<Piece>, start: Option<nat>, i: nat): seq<Piece>
  {
    if start.Some? && i - start.value >= 2 then runs + [Piece(start.value, i - 1)] else runs
  }

  lemma RunEnds(matched: seq<bool>, runs: seq<Piece>, start: Option<nat>, i: nat)
    requires i <= |matched| && Scanned(matched, runs, start, i) && (i < |matched| ==> !matched[i])
    ensures Runs(matched, Ended(runs, start, i), i)
  {
    if start.Some? {
      MoreRuns(matched, runs, start.value, i - 1);
    }
  }

  lemma ScanMatched(matched: seq<bool>, runs: seq<Piece>, start: Option<nat>, i: nat)
    requires i < |matched| && matched[i] && Scanned(matched, runs, start, i)
    ensures Scanned(matched, runs, if start.None? then Some(i) else start, i + 1)
  {
  }

  lemma ScanUnmatched(matched: seq<bool>, runs: seq<Piece>, start: Option<nat>, i: nat)
    requires i < |matched| && !matched[i] && Scanned(matched, runs, start, i)
    ensures Scanned(matched, Ended(runs, start, i), None, i + 1)
  {
    RunEnds(matched, runs, start, i);
    RunsFurther(matched, Ended(runs, start, i), i);
  }

  method EndRun(runs: seq<Piece>, start: Option<nat>, i: nat) returns (more: seq<Piece>)
    ensures more == Ended(runs, start, i)
  {
    more := runs;
    if start.Some? {
      if i - start.value >= 2 {
        more := more + [Piece(start.value, i - 1)];
      }
    }
  }

  /** The body of the loop over the match flags. */
  method ScanOne(matched: seq<bool>, runs0: seq<Piece>, start0: Option<nat>, i: nat)
    returns (runs: seq<Piece>, start: Option<nat>)
    requires i < |matched| && Scanned(matched, runs0, start0, i)
    ensures Scanned(matched, runs, start, i + 1)
  {
    runs, start := runs0, start0;
    if matched[i] {
      ScanMatched(matched, runs, start, i);
      if start == None {
        start := Some(i);
      }
    } else {
      ScanUnmatched(matched, runs, start, i);
      runs := EndRun(runs, start, i);
      start := None;
    }
  }

  method FindRuns(matched: seq<bool>) returns (runs: seq<Piece>)
    ensures Runs(matched, runs, |matched|)
  {
    runs := [];
    var start: Option<nat> := None;
    for i := 0 to |matched|
      invariant Scanned(matched, runs, start, i)
    {
      runs, start := ScanOne(matched, runs, start, i);
    }
    RunEnds(matched, runs, start, |matched|);
    runs := EndRun(runs, start, |matched|);
  }

  // ---------------------------------------------------------------------------
  // Stretches between closures
  // ---------------------------------------------------------------------------

  ghost predicate Holds(bs: seq<Boundary>, i: int)
  {
    exists k :: 0 <= k < |bs| && bs[k].lo <= i < bs[k].hi
  }

  /** A stretch without closed edges between closures or the ends of the road. */
  predicate IsBoundary(matched: seq<bool>, b: Boundary)
  {
    && b.lo < b.hi < |matched| && (b.left || b.right) && NoneClosed(matched, b.lo, b.hi)
    && (if b.left then Closed(matched, b.lo - 1) else b.lo == 0)
    && (if b.right then Closed(matched, b.hi) else b.hi == |matched| - 1)
  }

  /** The stretches of edges before `upto`, in order. */
  ghost predicate Boundaries(matched: seq<bool>, bs: seq<Boundary>, upto: int)
  {
    && (forall k :: 0 <= k < |bs| ==> IsBoundary(matched, bs[k]) && bs[k].hi <= upto)
    && (forall j, k :: 0 <= j < k < |bs| ==> bs[j].hi <= bs[k].lo)
    && (forall i :: 0 <= i < upto ==> (Holds(bs, i) <==> !Closed(matched, i)))
  }

  lemma MoreBoundaries(matched: seq<bool>, bs: seq<Boundary>, upto: nat, b: Boundary)
    requires Boundaries(matched, bs, upto) && IsBoundary(matched, b) && upto <= b.lo
    requires forall i :: upto <= i < b.lo ==> Closed(matched, i)
    ensures Boundaries(matched, bs + [b], b.hi)
  {
    var more := bs + [b];
    forall i | 0 <= i < b.hi ensures Holds(more, i) <==> !Closed(matched, i) {
      if Holds(bs, i) {
        var k :| 0 <= k < |bs| && bs[k].lo <= i < bs[k].hi;
        assert more[k] == bs[k];
      }
      if b.lo <= i {
        assert more[|bs|] == b;
      }
    }
  }

  lemma BoundariesFurther(matched: seq<bool>, bs: seq<Boundary>, upto: nat, to: nat)
    requires Boundaries(matched, bs, upto) && upto <= to
    requires forall i :: upto <= i < to ==> Closed(matched, i)
    ensures Boundaries(matched, bs, to)
  {
  }

  /** Between two consecutive runs, and beyond the first and the last, no edge is closed. */
  lemma BetweenRuns(matched: seq<bool>, runs: seq<Piece>, k: int)
    requires Runs(matched, runs, |matched|) && 0 < |runs| && -1 <= k < |runs|
    ensures NoneClosed(matched, if k < 0 then 0 else runs[k].hi,
                       if k + 1 < |runs| then runs[k + 1].lo else |matched| - 1)
    ensures k >= 0 ==> forall i :: runs[k].lo <= i < runs[k].hi ==> Closed(matched, i)
  {
  }

  /** The stretch after the last run, if there is one. */
  method AddRemainder(matched: seq<bool>, runs: seq<Piece>, before: seq<Boundary>) returns (bs: seq<Boundary>)
    requires runs != [] && Runs(matched, runs, |matched|)
    requires Boundaries(matched, before, runs[|runs| - 1].lo)
    ensures Boundaries(matched, bs, |matched| - 1)
  {
    var last := runs[|runs| - 1];
    bs := before;
    BetweenRuns(matched, runs, |runs| - 1);
    assert IsRun(matched, last);
    if last.hi < |matched| - 1 {
      var b := Boundary(last.hi, |matched| - 1, true, false);
      MoreBoundaries(matched, bs, last.lo, b);
      bs := bs + [b];
    } else {
      BoundariesFurther(matched, bs, last.lo, last.hi);
    }
  }

  method FindBoundaries(matched: seq<bool>, runs: seq<Piece>) returns (bs: seq<Boundary>)
    requires runs != [] && Runs(matched, runs, |matched|)
    ensures Boundaries(matched, bs, |matched| - 1)
  {
    bs := [];
    assert IsRun(matched, runs[0]);
    BetweenRuns(matched, runs, -1);
    BetweenRuns(matched, runs, 0);
    if runs[0].lo > 0 {
      var b := Boundary(0, runs[0].lo, false, true);
      MoreBoundaries(matched, bs, 0, b);
      bs := bs + [b];
    }
    for i := 0 to |runs| - 1
      invariant Boundaries(matched, bs, runs[i].lo)
    {
      var b := Boundary(runs[i].hi, runs[i + 1].lo, true, true);
      BetweenRuns(matched, runs, i);
      BetweenRuns(matched, runs, i + 1);
      assert IsRun(matched, runs[i]) && IsRun(matched, runs[i + 1]);
      MoreBoundaries(matched, bs, runs[i].lo, b);
      bs := bs + [b];
    }
    bs := AddRemainder(matched, runs, bs);
  }

  // ---------------------------------------------------------------------------
  // Classifying one stretch
  // ---------------------------------------------------------------------------

  /** No junction separates edge i from a closure at an end of its stretch. */
  predicate Reached(junction: seq<bool>, b: Boundary, i: int)
  {
    (b.left && Clear(junction, b.lo + 1, i + 1)) || (b.right && Clear(junction, i + 1, b.hi))
  }

  /** Within one stretch, this is the definition. */
  lemma ReachedIffAffected(matched: seq<bool>, junction: seq<bool>, b: Boundary, i: int)
    requires IsBoundary(matched, b) && b.lo <= i < b.hi
    ensures Reached(junction, b, i) <==> Affected(matched, junction, i)
  {
    assert !Closed(matched, i);
    if b.left && Clear(junction, b.lo + 1, i + 1) {
      assert FromLeft(matched, junction, i, b.lo);
    }
    if b.right && Clear(junction, i + 1, b.hi) {
      assert FromRight(matched, junction, i, b.hi);
    }
    if e :| FromLeft(matched, junction, i, e) {
      assert Closed(matched, e - 1) && (b.left ==> Closed(matched, b.lo - 1));
      assert b.left && e == b.lo;
    }
    if s :| FromRight(matched, junction, i, s) {
      assert Closed(matched, s) && (b.right ==> Closed(matched, b.hi));
      assert b.right && s == b.hi;
    }
  }

  /** The pieces of one stretch. */
  ghost predicate Classified(junction: seq<bool>, b: Boundary, affected: seq<Piece>, open: seq<Piece>)
  {
    && Within(affected, b.lo, b.hi) && Within(open, b.lo, b.hi)
    && (forall i :: b.lo <= i < b.hi ==> (Covers(affected, i) <==> Reached(junction, b, i)))
    && (forall i :: b.lo <= i < b.hi ==> (Covers(open, i) <==> !Reached(junction, b, i)))
    && (forall p :: p in affected ==> Clear(junction, p.lo + 1, p.hi)) && MeetAtJunctions(junction, affected)
    && Apart(open)
  }

  /** The first junction among coordinates lo to hi - 1. */
  method FirstJunction(junction: seq<bool>, lo: nat, hi: nat) returns (j: Option<nat>)
    requires lo <= hi <= |junction|
    ensures j.None? <==> Clear(junction, lo, hi)
    ensures j.Some? ==> lo <= j.value < hi && junction[j.value] && Clear(junction, lo, j.value)
  {
    j := None;
    for k := lo to hi
      invariant j == None && Clear(junction, lo, k)
    {
      if junction[k] {
        j := Some(k);
        break;
      }
    }
  }

  /** The last junction among coordinates lo to hi - 1. */
  method LastJunction(junction: seq<bool>, lo: nat, hi: nat) returns (j: Option<nat>)
    requires lo <= hi <= |junction|
    ensures j.None? <==> Clear(junction, lo, hi)
    ensures j.Some? ==> lo <= j.value < hi && junction[j.value] && Clear(junction, j.value + 1, hi)
  {
    j := None;
    for k := hi downto lo
      invariant j == None && Clear(junction, k, hi)
    {
      if junction[k] {
        j := Some(k);
        break;
      }
    }
  }

  lemma WholeStretch(junction: seq<bool>, b: Boundary)
    requires b.lo < b.hi && (b.left || b.right) && Clear(junction, b.lo + 1, b.hi)
    ensures Classified(junction, b, [Piece(b.lo, b.hi)], [])
  {
    OnePiece(Piece(b.lo, b.hi));
  }

  lemma CutGap(junction: seq<bool>, b: Boundary, l: nat, r: nat)
    requires b.left && b.right && b.lo < l <= r < b.hi < |junction| && junction[l] && junction[r]
    requires Clear(junction, b.lo + 1, l) && Clear(junction, r + 1, b.hi)
    ensures Classified(junction, b, [Piece(b.lo, l)] + [Piece(r, b.hi)], if l < r then [Piece(l, r)] else [])
  {
    OnePiece(Piece(b.lo, l));
    OnePiece(Piece(r, b.hi));
    OnePiece(Piece(l, r));
    CoversAppend([Piece(b.lo, l)], [Piece(r, b.hi)]);
    forall i | b.lo <= i < b.hi ensures Reached(junction, b, i) <==> i < l || r <= i {
    }
  }

  lemma CutForward(junction: seq<bool>, b: Boundary, j: nat)
    requires b.left && !b.right && b.lo < j <= b.hi < |junction| && junction[j] && Clear(junction, b.lo + 1, j)
    ensures Classified(junction, b, [Piece(b.lo, j)], if j < b.hi then [Piece(j, b.hi)] else [])
  {
    OnePiece(Piece(b.lo, j));
    OnePiece(Piece(j, b.hi));
    forall i | b.lo <= i < b.hi ensures Reached(junction, b, i) <==> i < j {
    }
  }

  lemma CutBackward(junction: seq<bool>, b: Boundary, j: nat)
    requires !b.left && b.right && b.lo <= j < b.hi < |junction| && junction[j] && Clear(junction, j + 1, b.hi)
    ensures Classified(junction, b, [Piece(j, b.hi)], if j > b.lo then [Piece(b.lo, j)] else [])
  {
    OnePiece(Piece(b.lo, j));
    OnePiece(Piece(j, b.hi));
    forall i | b.lo <= i < b.hi ensures Reached(junction, b, i) <==> j <= i {
    }
  }

  /** A stretch between two closures. The searches from both ends find a junction or neither does,
      and never cross, so the source's branches for a single or an overlapping one are dead. */
  method ClassifyGap(junction: seq<bool>, b: Boundary) returns (affected: seq<Piece>, open: seq<Piece>)
    requires b.lo < b.hi < |junction| && b.left && b.right
    ensures Classified(junction, b, affected, open)
  {
    affected, open := [], [];
    var left := FirstJunction(junction, b.lo + 1, b.hi);
    var right := LastJunction(junction, b.lo + 1, b.hi);
    if left.Some? && right.Some? {
      if left.value <= right.value {
        CutGap(junction, b, left.value, right.value);
        affected := [Piece(b.lo, left.value)];
        if left.value < right.value {
          open := [Piece(left.value, right.value)];
        }
        affected := affected + [Piece(right.value, b.hi)];
      } else {
        assert false;
      }
    } else if left.Some? {
      assert false;
    } else if right.Some? {
      assert false;
    } else {
      WholeStretch(junction, b);
      affected := [Piece(b.lo, b.hi)];
    }
  }

  /** A stretch that reaches an end of the road. */
  method ClassifyTail(junction: seq<bool>, b: Boundary, forward: bool) returns (affected: seq<Piece>, open: seq<Piece>)
    requires b.lo < b.hi < |junction| && b.left == forward && b.right == !forward
    ensures Classified(junction, b, affected, open)
  {
    affected, open := [], [];
    if forward {
      var j := FirstJunction(junction, b.lo + 1, b.hi + 1);
      if j.Some? {
        CutForward(junction, b, j.value);
        affected := [Piece(b.lo, j.value)];
        if j.value < b.hi {
          open := [Piece(j.value, b.hi)];
        }
      } else {
        WholeStretch(junction, b);
        affected := [Piece(b.lo, b.hi)];
      }
    } else {
      var j := LastJunction(junction, b.lo, b.hi);
      if j.Some? {
        CutBackward(junction, b, j.value);
        if j.value > b.lo {
          open := [Piece(b.lo, j.value)];
        }
        affected := [Piece(j.value, b.hi)];
      } else {
        WholeStretch(junction, b);
        affected := [Piece(b.lo, b.hi)];
      }
    }
  }

  // ---------------------------------------------------------------------------
  // The whole road
  // ---------------------------------------------------------------------------

  /** The pieces of the edges before `upto`. */
  ghost predicate Progress(matched: seq<bool>, junction: seq<bool>, upto: nat, affected: seq<Piece>, open: seq<Piece>)
  {
    && Within(affected, 0, upto) && Within(open, 0, upto)
    && (forall i :: 0 <= i < upto ==> (Covers(affected, i) <==> Affected(matched, junction, i)))
    && (forall i :: 0 <= i < upto ==> (Covers(open, i) <==> !Closed(matched, i) && !Affected(matched, junction, i)))
    && (forall p :: p in affected ==> Clear(junction, p.lo + 1, p.hi)) && MeetAtJunctions(junction, affected)
    && Apart(open)
  }

  lemma WithinAppend(ps: seq<Piece>, qs: seq<Piece>, mid: nat, lo: nat, hi: nat)
    requires Within(ps, 0, mid) && Within(qs, lo, hi) && mid <= lo <= hi
    ensures Within(ps + qs, 0, hi)
  {
  }

  lemma ProgressFurther(matched: seq<bool>, junction: seq<bool>, from: nat, upto: nat, affected: seq<Piece>,
                        open: seq<Piece>)
    requires Progress(matched, junction, from, affected, open) && from <= upto
    requires forall i :: from <= i < upto ==> Closed(matched, i)
    ensures Progress(matched, junction, upto, affected, open)
  {
  }

  /** The pieces so far end before the stretch: a closed edge lies between. */
  lemma EndBefore(matched: seq<bool>, junction: seq<bool>, b: Boundary, affected: seq<Piece>, open: seq<Piece>)
    requires IsBoundary(matched, b) && Progress(matched, junction, b.lo, affected, open)
    ensures forall k :: 0 <= k < |affected| ==> affected[k].hi < b.lo
    ensures forall k :: 0 <= k < |open| ==> open[k].hi < b.lo
  {
    forall k | 0 <= k < |affected| ensures affected[k].hi < b.lo {
      assert affected[k].hi == b.lo ==> Covers(affected, b.lo - 1);
    }
    forall k | 0 <= k < |open| ensures open[k].hi < b.lo {
      assert open[k].hi == b.lo ==> Covers(open, b.lo - 1);
    }
  }

  lemma ProgressStep(matched: seq<bool>, junction: seq<bool>, b: Boundary,
                     affected: seq<Piece>, open: seq<Piece>, a: seq<Piece>, o: seq<Piece>)
    requires IsBoundary(matched, b) && Progress(matched, junction, b.lo, affected, open)
    requires Classified(junction, b, a, o)
    ensures Progress(matched, junction, b.hi, affected + a, open + o)
  {
    EndBefore(matched, junction, b, affected, open);
    WithinAppend(affected, a, b.lo, b.lo, b.hi);
    WithinAppend(open, o, b.lo, b.lo, b.hi);
    CoversAppend(affected, a);
    CoversAppend(open, o);
    forall i | 0 <= i < b.hi
      ensures Covers(affected + a, i) <==> Affected(matched, junction, i)
      ensures Covers(open + o, i) <==> !Closed(matched, i) && !Affected(matched, junction, i)
    {
      if b.lo <= i {
        ReachedIffAffected(matched, junction, b, i);
      }
    }
  }

  /** The edges from one stretch to the next are closed. */
  lemma ClosedBetween(matched: seq<bool>, bs: seq<Boundary>, m: nat, i: int)
    requires Boundaries(matched, bs, |matched| - 1) && m <= |bs|
    requires (if m == 0 then 0 else bs[m - 1].hi) <= i < (if m == |bs| then |matched| - 1 else bs[m].lo)
    ensures Closed(matched, i)
  {
  }

  lemma RunsCover(matched: seq<bool>, runs: seq<Piece>)
    requires matched != [] && Runs(matched, runs, |matched|)
    ensures Within(runs, 0, |matched| - 1)
    ensures forall i :: 0 <= i < |matched| - 1 ==> (Covers(runs, i) <==> Closed(matched, i))
  {
  }

  method ClassifyAll(matched: seq<bool>, junction: seq<bool>, bs: seq<Boundary>)
    returns (affected: seq<Piece>, open: seq<Piece>)
    requires |junction| == |matched| > 0 && Boundaries(matched, bs, |matched| - 1)
    ensures Progress(matched, junction, |matched| - 1, affected, open)
  {
    affected, open := [], [];
    for m := 0 to |bs|
      invariant Progress(matched, junction, if m == 0 then 0 else bs[m - 1].hi, affected, open)
    {
      var b := bs[m];
      assert IsBoundary(matched, b);
      forall i | (if m == 0 then 0 else bs[m - 1].hi) <= i < b.lo ensures Closed(matched, i) {
        ClosedBetween(matched, bs, m, i);
      }
      ProgressFurther(matched, junction, if m == 0 then 0 else bs[m - 1].hi, b.lo, affected, open);
      var a, o;
      if b.left && b.right {
        a, o := ClassifyGap(junction, b);
      } else if b.left {
        a, o := ClassifyTail(junction, b, true);
      } else {
        a, o := ClassifyTail(junction, b, false);
      }
      ProgressStep(matched, junction, b, affected, open, a, o);
      affected, open := affected + a, open + o;
    }
    var upto := if bs == [] then 0 else bs[|bs| - 1].hi;
    forall i | upto <= i < |matched| - 1 ensures Closed(matched, i) {
      ClosedBetween(matched, bs, |bs|, i);
    }
    ProgressFurther(matched, junction, upto, |matched| - 1, affected, open);
  }

  /** _split_road_at_closure */
  method SplitRoad(matched: seq<bool>, junction: seq<bool>)
    returns (closed: seq<Piece>, affected: seq<Piece>, open: seq<Piece>)
    requires |junction| == |matched|
    ensures Split(matched, junction, closed, affected, open)
    ensures closed == [] <==> NoneClosed(matched, 0, |matched|)
  {
    var runs := FindRuns(matched);
    if runs == [] {
      return [], [], [];
    }
    closed, affected, open := [], [], [];
    for k := 0 to |runs|
      invariant closed == runs[..k]
    {
      closed := closed + [Piece(runs[k].lo, runs[k].hi)];
    }
    assert closed == runs;
    assert IsRun(matched, runs[0]) && Closed(matched, runs[0].lo);
    var bs := FindBoundaries(matched, runs);
    affected, open := ClassifyAll(matched, junction, bs);
    RunsCover(matched, runs);
  }

  // ---------------------------------------------------------------------------
  // Only one split
  // ---------------------------------------------------------------------------

  /** Pieces in order, cut inside nowhere and from the next one only where `cut`. */
  ghost predicate CutWhere(ps: seq<Piece>, lo: nat, hi: nat, cut: nat -> bool)
  {
    && Within(ps, lo, hi)
    && (forall k, x :: 0 <= k < |ps| && ps[k].lo < x < ps[k].hi ==> !cut(x))
    && (forall j, k :: 0 <= j < k < |ps| && ps[j].hi == ps[k].lo ==> cut(ps[j].hi))
  }

  lemma CoversTail(ps: seq<Piece>, i: int)
    requires ps != []
    ensures Covers(ps, i) <==> ps[0].lo <= i < ps[0].hi || Covers(ps[1..], i)
  {
    assert ps == [ps[0]] + ps[1..];
    CoversAppend([ps[0]], ps[1..]);
    OnePiece(ps[0]);
  }

  lemma CoveredFrom(ps: seq<Piece>, lo: nat, hi: nat, i: int)
    requires Within(ps, lo, hi) && ps != [] && Covers(ps, i)
    ensures ps[0].lo <= i
  {
    var k :| 0 <= k < |ps| && ps[k].lo <= i < ps[k].hi;
  }

  /** The first piece is no longer than that of another such list that covers the same. */
  lemma FirstNoLonger(ps: seq<Piece>, qs: seq<Piece>, lo: nat, hi: nat, cut: nat -> bool)
    requires CutWhere(ps, lo, hi, cut) && CutWhere(qs, lo, hi, cut) && ps != [] && qs != []
    requires forall i :: Covers(ps, i) <==> Covers(qs, i)
    requires ps[0].lo == qs[0].lo
    ensures ps[0].hi <= qs[0].hi
  {
    assert qs[0].hi < ps[0].hi ==> Covers(ps, qs[0].hi);
  }

  lemma LaterOnly(ps: seq<Piece>, lo: nat, hi: nat, i: int)
    requires Within(ps, lo, hi) && ps != []
    ensures Covers(ps[1..], i) ==> ps[0].hi <= i
  {
    if k :| 0 <= k < |ps[1..]| && ps[1..][k].lo <= i < ps[1..][k].hi {
      assert ps[1..][k] == ps[k + 1];
    }
  }

  lemma CutTail(ps: seq<Piece>, lo: nat, hi: nat, cut: nat -> bool)
    requires CutWhere(ps, lo, hi, cut) && ps != []
    ensures CutWhere(ps[1..], lo, hi, cut)
  {
  }

  lemma EmptyTogether(ps: seq<Piece>, qs: seq<Piece>, lo: nat, hi: nat)
    requires Within(ps, lo, hi) && Within(qs, lo, hi) && forall i :: Covers(ps, i) <==> Covers(qs, i)
    ensures ps == [] <==> qs == []
  {
    assert ps != [] ==> Covers(ps, ps[0].lo);
    assert qs != [] ==> Covers(qs, qs[0].lo);
  }

  /** Two such lists start with the same piece. */
  lemma SameFirst(ps: seq<Piece>, qs: seq<Piece>, lo: nat, hi: nat, cut: nat -> bool)
    requires CutWhere(ps, lo, hi, cut) && CutWhere(qs, lo, hi, cut) && ps != [] && qs != []
    requires forall i :: Covers(ps, i) <==> Covers(qs, i)
    ensures ps[0] == qs[0]
  {
    assert Covers(ps, ps[0].lo) && Covers(qs, qs[0].lo);
    CoveredFrom(qs, lo, hi, ps[0].lo);
    CoveredFrom(ps, lo, hi, qs[0].lo);
    FirstNoLonger(ps, qs, lo, hi, cut);
    FirstNoLonger(qs, ps, lo, hi, cut);
  }

  lemma SameTails(ps: seq<Piece>, qs: seq<Piece>, lo: nat, hi: nat, i: int)
    requires Within(ps, lo, hi) && Within(qs, lo, hi) && ps != [] && qs != [] && ps[0] == qs[0]
    requires Covers(ps, i) <==> Covers(qs, i)
    ensures Covers(ps[1..], i) <==> Covers(qs[1..], i)
  {
    CoversTail(ps, i);
    CoversTail(qs, i);
    LaterOnly(ps, lo, hi, i);
    LaterOnly(qs, lo, hi, i);
  }

  lemma {:induction false} SameLists(ps: seq<Piece>, qs: seq<Piece>, lo: nat, hi: nat, cut: nat -> bool)
    requires CutWhere(ps, lo, hi, cut) && CutWhere(qs, lo, hi, cut)
    requires forall i :: Covers(ps, i) <==> Covers(qs, i)
    ensures ps == qs
  {
    EmptyTogether(ps, qs, lo, hi);
    if ps != [] {
      SameFirst(ps, qs, lo, hi, cut);
      forall i ensures Covers(ps[1..], i) <==> Covers(qs[1..], i) {
        SameTails(ps, qs, lo, hi, i);
      }
      CutTail(ps, lo, hi, cut);
      CutTail(qs, lo, hi, cut);
      SameLists(ps[1..], qs[1..], lo, hi, cut);
      assert ps == [ps[0]] + ps[1..] && qs == [qs[0]] + qs[1..];
    }
  }

  /** The flags determine the three lists. */
  lemma SplitUnique(matched: seq<bool>, junction: seq<bool>, c: seq<Piece>, a: seq<Piece>, o: seq<Piece>,
                    c': seq<Piece>, a': seq<Piece>, o': seq<Piece>)
    requires |junction| == |matched| && Split(matched, junction, c, a, o) && Split(matched, junction, c', a', o')
    ensures c == c' && a == a' && o == o'
  {
    if !NoneClosed(matched, 0, |matched|) {
      var n := |matched| - 1;
      CoversInside(c, c', n);
      CoversInside(a, a', n);
      CoversInside(o, o', n);
      Uncut(c, n);
      Uncut(c', n);
      SameLists(c, c', 0, n, NEVER);
      Uncut(o, n);
      Uncut(o', n);
      SameLists(o, o', 0, n, NEVER);
      CutAtJunctions(junction, a, n);
      CutAtJunctions(junction, a', n);
      SameLists(a, a', 0, n, JunctionAt(junction));
    }
  }

  const NEVER: nat -> bool := x => false

  function JunctionAt(junction: seq<bool>): nat -> bool
  {
    (x: nat) => x < |junction| && junction[x]
  }

  lemma Uncut(ps: seq<Piece>, n: nat)
    requires Within(ps, 0, n) && Apart(ps)
    ensures CutWhere(ps, 0, n, NEVER)
  {
  }

  lemma CutAtJunctions(junction: seq<bool>, ps: seq<Piece>, n: nat)
    requires Within(ps, 0, n) && n < |junction| && MeetAtJunctions(junction, ps)
    requires forall p :: p in ps ==> Clear(junction, p.lo + 1, p.hi)
    ensures CutWhere(ps, 0, n, JunctionAt(junction))
  {
    forall k, x: nat | 0 <= k < |ps| && ps[k].lo < x < ps[k].hi ensures !JunctionAt(junction)(x) {
      assert ps[k] in ps;
    }
  }

  lemma CoversInside(ps: seq<Piece>, qs: seq<Piece>, n: nat)
    requires Within(ps, 0, n) && Within(qs, 0, n) && forall i :: 0 <= i < n ==> (Covers(ps, i) <==> Covers(qs, i))
    ensures forall i :: Covers(ps, i) <==> Covers(qs, i)
  {
  }

  // ---------------------------------------------------------------------------
  // An exact cover
  // ---------------------------------------------------------------------------

  /** The number of pieces edge i lies in. */
  function Count(ps: seq<Piece>, i: int): nat
  {
    if ps == [] then 0
    else
      var p := ps[|ps| - 1];
      Count(ps[..|ps| - 1], i) + if p.lo <= i < p.hi then 1 else 0
  }

  lemma {:induction false} CountIsCovers(ps: seq<Piece>, lo: nat, hi: nat, i: int)
    requires Within(ps, lo, hi)
    ensures Count(ps, i) == if Covers(ps, i) then 1 else 0
  {
    if ps != [] {
      var before, p := ps[..|ps| - 1], ps[|ps| - 1];
      CountIsCovers(before, lo, hi, i);
      CoversAppend(before, [p]);
      OnePiece(p);
      assert ps == before + [p];
    }
  }

  /** Every edge of a road with a closed edge is in one piece of one list. */
  lemma ExactCover(matched: seq<bool>, junction: seq<bool>, closed: seq<Piece>, affected: seq<Piece>, open: seq<Piece>,
                   i: int)
    requires Split(matched, junction, closed, affected, open) && !NoneClosed(matched, 0, |matched|)
    requires 0 <= i < |matched| - 1
    ensures Count(closed, i) == if Closed(matched, i) then 1 else 0
    ensures Count(affected, i) == if Affected(matched, junction, i) then 1 else 0
    ensures Count(closed, i) + Count(affected, i) + Count(open, i) == 1
  {
    CountIsCovers(closed, 0, |matched| - 1, i);
    CountIsCovers(affected, 0, |matched| - 1, i);
    CountIsCovers(open, 0, |matched| - 1, i);
  }

  /** The length from coordinate lo to hi, `w` giving the length of each edge. */
  function Stretch(w: seq<real>, lo: nat, hi: nat): real
    requires hi <= |w|
  {
    if lo >= hi then 0.0 else Stretch(w, lo, hi - 1) + w[hi - 1]
  }

  function Length(w: seq<real>, ps: seq<Piece>): real
    requires forall p :: p in ps ==> p.hi <= |w|
  {
    if ps == [] then 0.0
    else Length(w, ps[..|ps| - 1]) + Stretch(w, ps[|ps| - 1].lo, ps[|ps| - 1].hi)
  }

  /** The first m edges, each as often as it is covered. */
  function Counted(w: seq<real>, ps: seq<Piece>, m: nat): real
    requires m <= |w|
  {
    if m == 0 then 0.0 else Counted(w, ps, m - 1) + Times(Count(ps, m - 1), w[m - 1])
  }

  lemma {:induction false} CountedOneMore(w: seq<real>, ps: seq<Piece>, m: nat)
    requires m <= |w| && ps != []
    ensures var p := ps[|ps| - 1];
            Counted(w, ps, m) == Counted(w, ps[..|ps| - 1], m) + Stretch(w, p.lo, if m < p.hi then m else p.hi)
  {
    if m > 0 {
      CountedOneMore(w, ps, m - 1);
      OnceMore(Count(ps[..|ps| - 1], m - 1), w[m - 1]);
    }
  }

  lemma {:induction false} LengthIsCounted(w: seq<real>, ps: seq<Piece>)
    requires forall p :: p in ps ==> p.hi <= |w|
    ensures Length(w, ps) == Counted(w, ps, |w|)
  {
    if ps == [] {
      NothingCounted(w, |w|);
    } else {
      LengthIsCounted(w, ps[..|ps| - 1]);
      CountedOneMore(w, ps, |w|);
      assert ps[|ps| - 1] in ps;
    }
  }

  lemma {:induction false} NothingCounted(w: seq<real>, m: nat)
    requires m <= |w|
    ensures Counted(w, [], m) == 0.0
  {
    if m > 0 {
      NothingCounted(w, m - 1);
    }
  }

  lemma {:induction false} CountedOnce(w: seq<real>, a: seq<Piece>, b: seq<Piece>, c: seq<Piece>, m: nat)
    requires m <= |w| && forall i :: 0 <= i < m ==> Count(a, i) + Count(b, i) + Count(c, i) == 1
    ensures Counted(w, a, m) + Counted(w, b, m) + Counted(w, c, m) == Stretch(w, 0, m)
  {
    if m > 0 {
      CountedOnce(w, a, b, c, m - 1);
      assert Times(0, w[m - 1]) == 0.0 && Times(1, w[m - 1]) == w[m - 1];
    }
  }

  /** However long the edges are, the pieces are together as long as the road. */
  lemma LengthConserved(matched: seq<bool>, junction: seq<bool>, closed: seq<Piece>, affected: seq<Piece>,
                        open: seq<Piece>,
                        w: seq<real>)
    requires Split(matched, junction, closed, affected, open) && !NoneClosed(matched, 0, |matched|)
    requires |w| == |matched| - 1
    ensures Length(w, closed) + Length(w, affected) + Length(w, open) == Stretch(w, 0, |w|)
  {
    forall i | 0 <= i < |w| ensures Count(closed, i) + Count(affected, i) + Count(open, i) == 1 {
      ExactCover(matched, junction, closed, affected, open, i);
    }
    CountedOnce(w, closed, affected, open, |w|);
    LengthIsCounted(w, closed);
    LengthIsCounted(w, affected);
    LengthIsCounted(w, open);
  }
}
