/** The weekly view's columns: clip the reservations to the visible range, sort, and lay out each connected group. */
module WeeklyEvents {
  import opened Options
  import opened StableSort
  import opened LaneLayout

  datatype WeekEvent = WeekEvent(span: Span, lane: nat, columns: nat)

  // ---------- what is shown ----------

  function Clip(e: Span, from: int, to: int): Span {
    Span(e.id, if from < e.start then e.start else from, if e.end < to then e.end else to)
  }

  /** The filter and the map: reservations that start before `to` and end after `from`, cut to the range. */
  function Kept(events: seq<Span>, from: int, to: int): seq<Span> {
    if events == [] then []
    else
      var e := events[0];
      (if e.start < to && e.end > from then [Clip(e, from, to)] else []) + Kept(events[1..], from, to)
  }

  ghost predicate Meets(e: Span, from: int, to: int) {
    exists t :: Covers(e, t) && from <= t < to
  }

  ghost function Meeting(events: seq<Span>, from: int, to: int): seq<Span> {
    if events == [] then []
    else (if Meets(events[0], from, to) then [events[0]] else []) + Meeting(events[1..], from, to)
  }

  /** Exactly the reservations that share an instant with [from, to) are kept, in order, each reduced to its instants
      inside the range. */
  lemma {:induction false} KeptIsMeeting(events: seq<Span>, from: int, to: int)
    requires Positive(events) && from < to
    ensures |Kept(events, from, to)| == |Meeting(events, from, to)|
    ensures forall i :: 0 <= i < |Kept(events, from, to)| ==>
              var k, e := Kept(events, from, to)[i], Meeting(events, from, to)[i];
              k.id == e.id && k.start < k.end && forall t :: Covers(k, t) <==> Covers(e, t) && from <= t < to
  {
    if events != [] {
      var e := events[0];
      KeptIsMeeting(events[1..], from, to);
      if e.start < to && e.end > from {
        assert Covers(e, Clip(e, from, to).start);
      }
    }
  }

  // ---------- groups ----------

  /** Nothing before index b reaches past the start of anything from b on. */
  ghost predicate Boundary(s: seq<Span>, b: nat) {
    forall j, k :: 0 <= j < b <= k < |s| ==> s[j].end <= s[k].start
  }

  /** Some earlier span of the group is still running when span k starts. */
  ghost predicate Reached(s: seq<Span>, g: nat, k: nat)
    requires k < |s|
  {
    exists j :: g <= j < k && s[j].end > s[k].start
  }

  ghost predicate Chained(s: seq<Span>, g: nat, h: nat)
    requires h <= |s|
  {
    forall k :: g < k < h ==> Reached(s, g, k)
  }

  ghost predicate Laid(s: seq<Span>, lanes: seq<nat>, columns: seq<nat>, g: nat, h: nat)
    requires |columns| == |s| && |lanes| <= |s|
  {
    g < h <= |lanes| && Boundary(s, g) && Boundary(s, h) && Chained(s, g, h) && LanesDisjoint(s, lanes, g, h) &&
    Leftmost(s, lanes, g, h) && LanesBelow(lanes, g, h, columns[g]) && (forall j :: g <= j < h ==> columns[j] == columns[g]) &&
    (Positive(s) ==> IsPeak(s, g, h, columns[g]))
  }

  ghost predicate Settled(s: seq<Span>, lanes: seq<nat>, columns: seq<nat>, i: nat, top: nat)
    requires |columns| == |s| && |lanes| <= |s|
  {
    exists g: nat, h: nat :: g <= i < h <= top && Laid(s, lanes, columns, g, h)
  }

  ghost predicate AllSettled(s: seq<Span>, lanes: seq<nat>, columns: seq<nat>, top: nat)
    requires |columns| == |s| && |lanes| <= |s|
  {
    forall i :: 0 <= i < top ==> Settled(s, lanes, columns, i, top)
  }

  lemma SettledStays(s: seq<Span>, lanes: seq<nat>, columns: seq<nat>, lanes': seq<nat>, columns': seq<nat>, i: nat,
                     top: nat, top': nat)
    requires |columns| == |columns'| == |s| && |lanes| <= |lanes'| <= |s| && top <= top'
    requires top <= |lanes| && lanes[..top] == lanes'[..top] && columns[..top] == columns'[..top]
    requires Settled(s, lanes, columns, i, top)
    ensures Settled(s, lanes', columns', i, top')
  {
    var g: nat, h: nat :| g <= i < h <= top && Laid(s, lanes, columns, g, h);
    forall j | g <= j < h ensures lanes'[j] == lanes[j] && columns'[j] == columns[j] {
      assert lanes[..top][j] == lanes'[..top][j] && columns[..top][j] == columns'[..top][j];
    }
    LeftmostStays(s, lanes, lanes', g, h);
    assert Laid(s, lanes', columns', g, h);
  }

  lemma LeftmostStays(s: seq<Span>, lanes: seq<nat>, lanes': seq<nat>, g: nat, h: nat)
    requires h <= |s| && h <= |lanes| <= |lanes'| && Leftmost(s, lanes, g, h)
    requires forall j :: g <= j < h ==> lanes'[j] == lanes[j]
    ensures Leftmost(s, lanes', g, h)
  {
    forall k, l | g <= k < h && 0 <= l < lanes'[k] ensures Occupied(s, lanes', g, k, l) {
      assert Occupied(s, lanes, g, k, l);
      var j :| g <= j < k && lanes[j] == l && s[j].end > s[k].start;
      assert lanes'[j] == l;
    }
  }

  ghost predicate GroupEnd(s: seq<Span>, g: nat, h: nat, end: Option<int>)
    requires h <= |s|
  {
    match end
    case None => g == h
    case Some(e) => g < h && (forall j :: g <= j < h ==> s[j].end <= e) && exists j :: g <= j < h && s[j].end == e
  }

  /** The loop's state between two events. */
  ghost predicate Placing(s: seq<Span>, lanes: seq<nat>, columns: seq<nat>, g: nat, end: Option<int>, p: Packing)
  {
    g <= |lanes| <= |s| && |columns| == |s| && Boundary(s, g) && Chained(s, g, |lanes|) && GroupEnd(s, g, |lanes|, end) &&
    Packed(s, lanes, g, |lanes|, p) && AllSettled(s, lanes, columns, g)
  }

  // ---------- the algorithm ----------

  /** `finish`: writes the number of lanes into every event of the group. */
  method Finish(columns: seq<nat>, g: nat, h: nat, n: nat) returns (r: seq<nat>)
    requires g <= h <= |columns|
    ensures |r| == |columns|
    ensures forall j :: 0 <= j < |r| ==> r[j] == if g <= j < h then n else columns[j]
  {
    r := columns;
    var i := g;
    while i < h
      invariant g <= i <= h && |r| == |columns|
      invariant forall j :: 0 <= j < |r| ==> r[j] == if g <= j < i then n else columns[j]
    {
      r := r[i := n];
      i := i + 1;
    }
  }

  lemma Closes(s: seq<Span>, lanes: seq<nat>, columns: seq<nat>, g: nat, end: Option<int>, p: Packing, columns': seq<nat>)
    requires ByStart(s) && Placing(s, lanes, columns, g, end, p)
    requires end.Some? && Boundary(s, |lanes|) && |columns'| == |columns|
    requires forall j :: 0 <= j < |columns| ==> columns'[j] == if g <= j < |lanes| then |p.ends| else columns[j]
    ensures AllSettled(s, lanes, columns', |lanes|)
  {
    if Positive(s) { PackedIsPeak(s, lanes, g, |lanes|, p); }
    assert Laid(s, lanes, columns', g, |lanes|);
    forall i | 0 <= i < |lanes| ensures Settled(s, lanes, columns', i, |lanes|) {
      if i < g {
        assert columns[..g] == columns'[..g];
        SettledStays(s, lanes, columns, lanes, columns', i, g, |lanes|);
      }
    }
  }

  lemma StartsAfter(s: seq<Span>, g: nat, h: nat, end: int)
    requires ByStart(s) && Boundary(s, g) && g < h < |s| && GroupEnd(s, g, h, Some(end)) && s[h].start >= end
    ensures Boundary(s, h)
  {
    forall j, k | 0 <= j < h <= k < |s| ensures s[j].end <= s[k].start {
      assert h < k ==> s[h].start <= s[k].start;
    }
  }

  function Later(end: Option<int>, e: int): Option<int> {
    if end.None? || end.value < e then Some(e) else end
  }

  lemma Places(s: seq<Span>, lanes: seq<nat>, columns: seq<nat>, g: nat, end: Option<int>, p: Packing, lane: nat)
    requires ByStart(s) && Placing(s, lanes, columns, g, end, p) && |lanes| < |s|
    requires end.Some? ==> s[|lanes|].start < end.value
    requires FirstFit(p.ends, s[|lanes|].start, lane)
    ensures Placing(s, lanes + [lane], columns, g, Later(end, s[|lanes|].end), NextPacking(p, s, |lanes|, lane))
  {
    var i := |lanes|;
    PackNext(s, lanes, g, p, lane);
    AllSettledStays(s, lanes, columns, g, lane);
    ChainGrows(s, g, i, end);
    EndGrows(s, g, i, end);
  }

  lemma AllSettledStays(s: seq<Span>, lanes: seq<nat>, columns: seq<nat>, g: nat, lane: nat)
    requires g <= |lanes| < |s| == |columns| && AllSettled(s, lanes, columns, g)
    ensures AllSettled(s, lanes + [lane], columns, g)
  {
    forall k | 0 <= k < g ensures Settled(s, lanes + [lane], columns, k, g) {
      assert lanes[..g] == (lanes + [lane])[..g];
      SettledStays(s, lanes, columns, lanes + [lane], columns, k, g, g);
    }
  }

  lemma ChainGrows(s: seq<Span>, g: nat, i: nat, end: Option<int>)
    requires g <= i < |s| && Chained(s, g, i) && GroupEnd(s, g, i, end) && (end.Some? ==> s[i].start < end.value)
    ensures Chained(s, g, i + 1)
  {
    if g < i {
      var j :| g <= j < i && s[j].end == end.value;
      assert Reached(s, g, i);
    }
  }

  lemma EndGrows(s: seq<Span>, g: nat, i: nat, end: Option<int>)
    requires g <= i < |s| && GroupEnd(s, g, i, end)
    ensures GroupEnd(s, g, i + 1, Later(end, s[i].end))
  {
    if end.Some? && !(end.value < s[i].end) {
      var j :| g <= j < i && s[j].end == end.value;
      assert g <= j < i + 1 && s[j].end == end.value;
    } else {
      assert s[i].end == Later(end, s[i].end).value;
    }
  }

  /** Lanes and columns of sorted spans. */
  method Place(s: seq<Span>) returns (lanes: seq<nat>, columns: seq<nat>)
    requires ByStart(s)
    ensures |lanes| == |columns| == |s|
    ensures AllSettled(s, lanes, columns, |s|)
  {
    lanes, columns := [], seq(|s|, _ => 1);
    var g: nat, ends: seq<int>, groupEnd := 0, [], None;
    ghost var p := EMPTY_PACKING;
    while |lanes| < |s|
      invariant Placing(s, lanes, columns, g, groupEnd, p) && p.ends == ends
      decreases |s| - |lanes|
    {
      var event := s[|lanes|];
      if groupEnd.None? || event.start >= groupEnd.value {
        ghost var before := columns;
        columns := Finish(columns, g, |lanes|, |ends|);
        if groupEnd.Some? {
          StartsAfter(s, g, |lanes|, groupEnd.value);
          Closes(s, lanes, before, g, groupEnd, p, columns);
        } else {
          assert columns == before;
        }
        g, ends, groupEnd := |lanes|, [], None;
        p := EMPTY_PACKING;
      }
      var lane := FindLane(ends, event.start);
      Places(s, lanes, columns, g, groupEnd, p, lane);
      PackNext(s, lanes, g, p, lane);
      p := NextPacking(p, s, |lanes|, lane);
      ends := PutEnd(ends, lane, event.end);
      lanes := lanes + [lane];
      groupEnd := Later(groupEnd, event.end);
    }
    ghost var before := columns;
    columns := Finish(columns, g, |lanes|, |ends|);
    if groupEnd.Some? {
      Closes(s, lanes, before, g, groupEnd, p, columns);
    } else {
      assert columns == before;
    }
  }

  // ---------- connected groups ----------

  /** A chain of spans, each sharing an instant with the next. */
  ghost predicate Path(s: seq<Span>, p: seq<nat>) {
    p != [] && (forall k :: 0 <= k < |p| ==> p[k] < |s|) &&
    forall k :: 0 <= k < |p| - 1 ==> Overlap(s[p[k]], s[p[k + 1]])
  }

  ghost predicate Connected(s: seq<Span>, i: nat, j: nat) {
    exists p :: Path(s, p) && p[0] == i && p[|p| - 1] == j
  }

  lemma OverlapStays(s: seq<Span>, g: nat, h: nat, i: nat, j: nat)
    requires Boundary(s, g) && Boundary(s, h) && g <= i < h <= |s| && j < |s| && Overlap(s[i], s[j])
    ensures g <= j < h
  {
    OverlapIff(s[i], s[j]);
  }

  lemma {:induction false} PathStays(s: seq<Span>, g: nat, h: nat, p: seq<nat>)
    requires Boundary(s, g) && Boundary(s, h) && h <= |s| && Path(s, p) && g <= p[0] < h
    ensures g <= p[|p| - 1] < h
    decreases |p|
  {
    if |p| > 1 {
      OverlapStays(s, g, h, p[0], p[1]);
      PathStays(s, g, h, p[1..]);
    }
  }

  lemma JoinPaths(s: seq<Span>, p: seq<nat>, q: seq<nat>)
    requires Path(s, p) && Path(s, q) && Overlap(s[p[|p| - 1]], s[q[0]])
    ensures Path(s, p + q)
  {
    var r := p + q;
    forall k | 0 <= k < |r| - 1 ensures Overlap(s[r[k]], s[r[k + 1]]) {
      if k >= |p| { assert r[k] == q[k - |p|] && r[k + 1] == q[k - |p| + 1]; }
    }
  }

  /** Two chains between the first span of a group and any of its spans, one each way. */
  lemma {:induction false} ChainToFirst(s: seq<Span>, g: nat, h: nat, k: nat) returns (down: seq<nat>, up: seq<nat>)
    requires ByStart(s) && Positive(s) && g <= k < h <= |s| && Chained(s, g, h)
    ensures Path(s, down) && down[0] == k && down[|down| - 1] == g
    ensures Path(s, up) && up[0] == g && up[|up| - 1] == k
    decreases k
  {
    down, up := [k], [k];
    if k > g {
      assert Reached(s, g, k);
      var j :| g <= j < k && s[j].end > s[k].start;
      OverlapIff(s[j], s[k]);
      OverlapIff(s[k], s[j]);
      var d, u := ChainToFirst(s, g, h, j);
      JoinPaths(s, [k], d);
      JoinPaths(s, u, [k]);
      down, up := [k] + d, u + [k];
    }
  }

  /** The blocks the loop closes are exactly the connected components of the overlap relation. */
  lemma GroupIsComponent(s: seq<Span>, g: nat, h: nat, i: nat, j: nat)
    requires ByStart(s) && Positive(s) && h <= |s| && Boundary(s, g) && Boundary(s, h) && Chained(s, g, h) && g <= i < h
    ensures Connected(s, i, j) <==> g <= j < h
  {
    if Connected(s, i, j) {
      var p :| Path(s, p) && p[0] == i && p[|p| - 1] == j;
      PathStays(s, g, h, p);
    }
    if g <= j < h {
      var down, _ := ChainToFirst(s, g, h, i);
      var _, up := ChainToFirst(s, g, h, j);
      OverlapIff(s[g], s[g]);
      JoinPaths(s, down, up);
      assert Path(s, down + up) && (down + up)[0] == i && (down + up)[|down + up| - 1] == j;
    }
  }

  // ---------- the layout is sound and optimal ----------

  /** The spans of i's component that cover the instant t. */
  ghost function Crowd(s: seq<Span>, i: nat, t: int): set<nat> {
    set j: nat | j < |s| && Connected(s, i, j) && Covers(s[j], t)
  }

  /** Span i's columns value is the busiest instant of its component, and the whole component has it. */
  ghost predicate FitsComponent(s: seq<Span>, lanes: seq<nat>, columns: seq<nat>, i: nat)
    requires |lanes| == |columns| == |s| && i < |s|
  {
    lanes[i] < columns[i] &&
    (forall j: nat :: j < |s| && Connected(s, i, j) ==> columns[i] == columns[j]) &&
    (forall t :: |Crowd(s, i, t)| <= columns[i]) && (exists t :: |Crowd(s, i, t)| == columns[i])
  }

  /** Overlapping spans belong together and stand in different lanes. */
  ghost predicate Separated(s: seq<Span>, lanes: seq<nat>, i: nat, j: nat)
    requires |lanes| == |s| && i < |s| && j < |s|
  {
    Overlap(s[i], s[j]) ==> lanes[i] != lanes[j] && Connected(s, i, j)
  }

  /** Every lane to the left of span i is taken by an earlier span that overlaps it. */
  ghost predicate LeftTaken(s: seq<Span>, lanes: seq<nat>, i: nat)
    requires |lanes| == |s| && i < |s|
  {
    forall l: nat :: l < lanes[i] ==> TakenBefore(s, lanes, i, l)
  }

  ghost predicate TakenBefore(s: seq<Span>, lanes: seq<nat>, i: nat, l: nat)
    requires |lanes| == |s| && i < |s|
  {
    exists j :: 0 <= j < i && lanes[j] == l && Overlap(s[j], s[i])
  }

  ghost predicate Optimal(s: seq<Span>, lanes: seq<nat>, columns: seq<nat>)
    requires |lanes| == |columns| == |s|
  {
    (forall i :: 0 <= i < |s| ==> LeftTaken(s, lanes, i)) &&
    (forall i :: 0 <= i < |s| ==> FitsComponent(s, lanes, columns, i)) &&
    (forall i, j :: 0 <= i < j < |s| ==> Separated(s, lanes, i, j))
  }

  lemma SettledIsOptimal(s: seq<Span>, lanes: seq<nat>, columns: seq<nat>)
    requires ByStart(s) && Positive(s) && |lanes| == |columns| == |s| && AllSettled(s, lanes, columns, |s|)
    ensures Optimal(s, lanes, columns)
  {
    forall i: nat | i < |s| ensures FitsComponent(s, lanes, columns, i) && LeftTaken(s, lanes, i) {
      ComponentIsOptimal(s, lanes, columns, i);
      LeftIsTaken(s, lanes, columns, i);
    }
    forall i: nat, j: nat | i < j < |s| ensures Separated(s, lanes, i, j) {
      if Overlap(s[i], s[j]) { OverlappingAreSeparated(s, lanes, columns, i, j); }
    }
  }

  lemma ComponentIsOptimal(s: seq<Span>, lanes: seq<nat>, columns: seq<nat>, i: nat)
    requires ByStart(s) && Positive(s) && |lanes| == |columns| == |s| && i < |s| && Settled(s, lanes, columns, i, |s|)
    ensures FitsComponent(s, lanes, columns, i)
  {
    var g: nat, h: nat :| g <= i < h <= |s| && Laid(s, lanes, columns, g, h);
    forall j: nat | j < |s| ensures Connected(s, i, j) <==> g <= j < h {
      GroupIsComponent(s, g, h, i, j);
    }
    forall t ensures Crowd(s, i, t) == At(s, g, h, t) {
    }
    var busiest :| |At(s, g, h, busiest)| == columns[g];
    assert |Crowd(s, i, busiest)| == columns[i];
  }

  lemma LeftIsTaken(s: seq<Span>, lanes: seq<nat>, columns: seq<nat>, i: nat)
    requires ByStart(s) && Positive(s) && |lanes| == |columns| == |s| && i < |s| && Settled(s, lanes, columns, i, |s|)
    ensures LeftTaken(s, lanes, i)
  {
    var g: nat, h: nat :| g <= i < h <= |s| && Laid(s, lanes, columns, g, h);
    forall l: nat | l < lanes[i] ensures TakenBefore(s, lanes, i, l) {
      assert Occupied(s, lanes, g, i, l);
      var j :| g <= j < i && lanes[j] == l && s[j].end > s[i].start;
      OverlapIff(s[j], s[i]);
    }
  }

  lemma OverlappingAreSeparated(s: seq<Span>, lanes: seq<nat>, columns: seq<nat>, i: nat, j: nat)
    requires Positive(s) && |lanes| == |columns| == |s| && i < j < |s| && Settled(s, lanes, columns, i, |s|)
    requires Overlap(s[i], s[j])
    ensures Separated(s, lanes, i, j)
  {
    var g: nat, h: nat :| g <= i < h <= |s| && Laid(s, lanes, columns, g, h);
    OverlapStays(s, g, h, i, j);
    OverlapIff(s[i], s[j]);
    var p := [i, j];
    assert Path(s, p) && p[0] == i && p[|p| - 1] == j;
  }

  function Spans(r: seq<WeekEvent>): seq<Span> {
    seq(|r|, i requires 0 <= i < |r| => r[i].span)
  }

  function Lanes(r: seq<WeekEvent>): seq<nat> {
    seq(|r|, i requires 0 <= i < |r| => r[i].lane)
  }

  function Columns(r: seq<WeekEvent>): seq<nat> {
    seq(|r|, i requires 0 <= i < |r| => r[i].columns)
  }

  method WeeklyEvents(events: seq<Span>, from: int, to: int) returns (r: seq<WeekEvent>)
    ensures multiset(Spans(r)) == multiset(Kept(events, from, to))
    ensures InOrder(Spans(r), true)
    ensures AllSettled(Spans(r), Lanes(r), Columns(r), |r|)
    ensures Positive(events) && from < to ==> Optimal(Spans(r), Lanes(r), Columns(r))
  {
    var s := Sorted(Comparator(LongestFirst), Kept(events, from, to));
    SortedByStart(LongestFirst, Kept(events, from, to));
    var lanes, columns := Place(s);
    r := seq(|s|, i requires 0 <= i < |s| => WeekEvent(s[i], lanes[i], columns[i]));
    assert Spans(r) == s && Lanes(r) == lanes && Columns(r) == columns;
    if Positive(events) && from < to {
      KeptIsMeeting(events, from, to);
      SettledIsOptimal(s, lanes, columns);
    }
  }
}
