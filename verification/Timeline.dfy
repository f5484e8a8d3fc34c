/** The day timeline: lanes for overlapping events and the closed time between opening windows. */
module Timeline {
  import opened StableSort
  import opened LaneLayout

  // ---------- lanes ----------

  datatype TimelineEvent = TimelineEvent(span: Span, lane: nat)

  function Spans(r: seq<TimelineEvent>): seq<Span> {
    seq(|r|, i requires 0 <= i < |r| => r[i].span)
  }

  /** Lanes separate what overlaps, each event takes the first free one, and there are as many as events meet at the busiest
      instant. */
  ghost predicate Economical(r: seq<TimelineEvent>) {
    (forall i, j :: 0 <= i < j < |r| && Overlap(r[i].span, r[j].span) ==> r[i].lane != r[j].lane) &&
    (forall i, l: nat :: 0 <= i < |r| && l < r[i].lane ==> TakenBefore(r, i, l)) &&
    exists n: nat :: UsesLanes(r, n) && IsPeak(Spans(r), 0, |r|, n)
  }

  /** An earlier event that overlaps event i stands in lane l. */
  ghost predicate TakenBefore(r: seq<TimelineEvent>, i: nat, l: nat)
    requires i < |r|
  {
    exists j :: 0 <= j < i && r[j].lane == l && Overlap(r[j].span, r[i].span)
  }

  ghost predicate UsesLanes(r: seq<TimelineEvent>, n: nat) {
    forall l: nat :: l < n <==> UsesLane(r, l)
  }

  ghost predicate UsesLane(r: seq<TimelineEvent>, l: nat) {
    exists i :: 0 <= i < |r| && r[i].lane == l
  }

  lemma PackedIsEconomical(r: seq<TimelineEvent>, lanes: seq<nat>, p: Packing)
    requires |lanes| == |r| && (forall i :: 0 <= i < |r| ==> r[i].lane == lanes[i])
    requires ByStart(Spans(r)) && Positive(Spans(r)) && Packed(Spans(r), lanes, 0, |r|, p)
    ensures Economical(r)
  {
    var s := Spans(r);
    forall i, j | 0 <= i < j < |r| && Overlap(r[i].span, r[j].span) ensures r[i].lane != r[j].lane {
      OverlapIff(s[i], s[j]);
    }
    forall i, l: nat | 0 <= i < |r| && l < r[i].lane ensures TakenBefore(r, i, l) {
      assert Occupied(s, lanes, 0, i, l);
      var j :| 0 <= j < i && lanes[j] == l && s[j].end > s[i].start;
      OverlapIff(s[j], s[i]);
    }
    forall l: nat ensures l < |p.ends| <==> UsesLane(r, l) {
      if l < |p.ends| { assert r[p.holders[l]].lane == l; }
    }
    assert UsesLanes(r, |p.ends|);
    PackedIsPeak(s, lanes, 0, |r|, p);
  }

  method AssignLanes(events: seq<Span>) returns (r: seq<TimelineEvent>)
    ensures multiset(Spans(r)) == multiset(events) && InOrder(Spans(r), false)
    ensures Positive(events) ==> Economical(r)
  {
    var s := Sorted(Comparator(ShortestFirst), events);
    SortedByStart(ShortestFirst, events);
    var lanes, p := PlaceAll(s);
    r := seq(|s|, i requires 0 <= i < |s| => TimelineEvent(s[i], lanes[i]));
    assert Spans(r) == s;
    if Positive(events) { PackedIsEconomical(r, lanes, p); }
  }

  method PlaceAll(s: seq<Span>) returns (lanes: seq<nat>, ghost p: Packing)
    requires ByStart(s)
    ensures |lanes| == |s| && Packed(s, lanes, 0, |lanes|, p)
  {
    lanes, p := [], EMPTY_PACKING;
    var ends: seq<int> := [];
    while |lanes| < |s|
      invariant |lanes| <= |s| && p.ends == ends && Packed(s, lanes, 0, |lanes|, p)
    {
      var event := s[|lanes|];
      var lane := FindLane(ends, event.start);
      PackNext(s, lanes, 0, p, lane);
      p := NextPacking(p, s, |lanes|, lane);
      ends := PutEnd(ends, lane, event.end);
      lanes := lanes + [lane];
    }
  }

  // ---------- closed ranges ----------

  datatype Range = Range(start: int, end: int)

  predicate Within(r: Range, t: int) {
    r.start <= t < r.end
  }

  ghost predicate InSome(rs: seq<Range>, t: int) {
    exists i :: 0 <= i < |rs| && Within(rs[i], t)
  }

  ghost predicate Forward(windows: seq<Range>) {
    forall i :: 0 <= i < |windows| ==> windows[i].start <= windows[i].end
  }

  function Starts(): (Range, Range) -> bool {
    (a: Range, b: Range) => a.start <= b.start
  }

  /** Nonempty ranges inside [from, to), in order and apart from each other. */
  ghost predicate Tidy(rs: seq<Range>, from: int, to: int) {
    (forall i :: 0 <= i < |rs| ==> from <= rs[i].start < rs[i].end <= to) &&
    (forall i, j :: 0 <= i < j < |rs| ==> rs[i].end <= rs[j].start)
  }

  /** The ranges found so far are what lies before the cursor and in no window. */
  ghost predicate Exact(rs: seq<Range>, windows: seq<Range>, from: int, to: int, cursor: int) {
    forall t :: from <= t < to ==> (InSome(rs, t) <==> t < cursor && !InSome(windows, t))
  }

  /** No window looked at so far opens a later instant of [from, to). */
  ghost predicate Passed(windows: seq<Range>, n: nat, from: int, to: int, cursor: int)
    requires n <= |windows|
  {
    forall i :: 0 <= i < n ==> windows[i].end <= cursor || windows[i].start >= to
  }

  lemma Extends(rs: seq<Range>, x: Range, t: int)
    ensures InSome(rs + [x], t) <==> InSome(rs, t) || Within(x, t)
  {
    if InSome(rs, t) {
      var i :| 0 <= i < |rs| && Within(rs[i], t);
      assert Within((rs + [x])[i], t);
    }
    if Within(x, t) { assert Within((rs + [x])[|rs|], t); }
  }

  /** A gap before the next window is closed time, whatever windows come later. */
  lemma GapIsClosed(w: seq<Range>, n: nat, from: int, to: int, cursor: int, t: int)
    requires Ordered(Starts(), w) && n < |w| && Passed(w, n, from, to, cursor) && cursor <= t < w[n].start && t < to
    ensures !InSome(w, t)
  {
    forall i | 0 <= i < |w| ensures !Within(w[i], t) {
      if i > n { assert Starts()(w[n], w[i]); }
    }
  }

  /** The loop's state before window n. */
  ghost predicate Cutting(w: seq<Range>, n: nat, rs: seq<Range>, from: int, to: int, cursor: int)
    requires n <= |w|
  {
    Tidy(rs, from, to) && (forall i :: 0 <= i < |rs| ==> rs[i].end <= cursor) && Passed(w, n, from, to, cursor) &&
    Exact(rs, w, from, to, cursor)
  }

  lemma SkipsWindow(w: seq<Range>, n: nat, rs: seq<Range>, from: int, to: int, cursor: int)
    requires n < |w| && from <= cursor && Cutting(w, n, rs, from, to, cursor) && (w[n].end <= from || w[n].start >= to)
    ensures Cutting(w, n + 1, rs, from, to, cursor)
  {
  }

  function Gap(rs: seq<Range>, window: Range, to: int, cursor: int): seq<Range> {
    if window.start > cursor then rs + [Range(cursor, if window.start < to then window.start else to)] else rs
  }

  function Advance(cursor: int, window: Range): int {
    if cursor < window.end then window.end else cursor
  }

  lemma CutsWindow(w: seq<Range>, n: nat, rs: seq<Range>, from: int, to: int, cursor: int)
    requires Ordered(Starts(), w) && Forward(w) && n < |w| && from <= cursor && Cutting(w, n, rs, from, to, cursor)
    requires from < w[n].end && w[n].start < to
    ensures Cutting(w, n + 1, Gap(rs, w[n], to, cursor), from, to, Advance(cursor, w[n]))
  {
    StepIsExact(w, n, rs, from, to, cursor);
  }

  lemma StepIsExact(w: seq<Range>, n: nat, rs: seq<Range>, from: int, to: int, cursor: int)
    requires Ordered(Starts(), w) && Forward(w) && n < |w| && Passed(w, n, from, to, cursor) && Exact(rs, w, from, to, cursor)
    requires from <= cursor && from < w[n].end && w[n].start < to
    ensures Exact(Gap(rs, w[n], to, cursor), w, from, to, Advance(cursor, w[n]))
  {
    forall t | from <= t < to
      ensures InSome(Gap(rs, w[n], to, cursor), t) <==> t < Advance(cursor, w[n]) && !InSome(w, t)
    {
      Extends(rs, Range(cursor, w[n].start), t);
      if cursor <= t < w[n].start { GapIsClosed(w, n, from, to, cursor, t); }
      if w[n].start <= t < w[n].end { assert Within(w[n], t); }
    }
  }

  lemma EndIsExact(w: seq<Range>, rs: seq<Range>, from: int, to: int, cursor: int)
    requires from <= cursor && Cutting(w, |w|, rs, from, to, cursor)
    ensures var r := if cursor < to then rs + [Range(cursor, to)] else rs; Tidy(r, from, to) && Exact(r, w, from, to, to)
  {
    forall t | from <= t < to
      ensures InSome(if cursor < to then rs + [Range(cursor, to)] else rs, t) <==> t < to && !InSome(w, t)
    {
      Extends(rs, Range(cursor, to), t);
    }
  }

  lemma SameWindows(windows: seq<Range>, w: seq<Range>)
    requires multiset(windows) == multiset(w)
    ensures Forward(windows) ==> Forward(w)
    ensures forall t :: InSome(windows, t) <==> InSome(w, t)
  {
    if Forward(windows) {
      forall i | 0 <= i < |w| ensures w[i].start <= w[i].end { assert w[i] in multiset(w) && w[i] in windows; }
    }
    forall t ensures InSome(windows, t) <==> InSome(w, t) {
      if InSome(windows, t) { OpenThere(windows, w, t); }
      if InSome(w, t) { OpenThere(w, windows, t); }
    }
  }

  lemma OpenThere(windows: seq<Range>, w: seq<Range>, t: int)
    requires multiset(windows) == multiset(w) && InSome(windows, t)
    ensures InSome(w, t)
  {
    var i :| 0 <= i < |windows| && Within(windows[i], t);
    assert windows[i] in multiset(windows) && windows[i] in w;
    var k :| 0 <= k < |w| && w[k] == windows[i];
    assert Within(w[k], t);
  }

  /** The exact complement of the windows inside [from, to). */
  method ClosedRanges(from: int, to: int, windows: seq<Range>) returns (r: seq<Range>)
    ensures Forward(windows) ==> Tidy(r, from, to)
    ensures Forward(windows) ==> forall t :: from <= t < to ==> (InSome(r, t) <==> !InSome(windows, t))
  {
    var w := Sorted(Starts(), windows);
    SortedSorts(Starts(), windows);
    SameWindows(windows, w);
    r := CutAll(from, to, w);
    if Forward(windows) {
      forall t | from <= t < to ensures InSome(r, t) <==> !InSome(windows, t) {
        assert InSome(windows, t) <==> InSome(w, t);
      }
    }
  }

  method CutAll(from: int, to: int, w: seq<Range>) returns (r: seq<Range>)
    requires Ordered(Starts(), w)
    ensures Forward(w) ==> Tidy(r, from, to) && Exact(r, w, from, to, to)
  {
    r := [];
    var cursor, n: nat := from, 0;
    while n < |w|
      invariant n <= |w| && from <= cursor
      invariant Forward(w) ==> Cutting(w, n, r, from, to, cursor)
    {
      var window := w[n];
      if window.end <= from || window.start >= to {
        if Forward(w) { SkipsWindow(w, n, r, from, to, cursor); }
      } else {
        if Forward(w) { CutsWindow(w, n, r, from, to, cursor); }
        r := Gap(r, window, to, cursor);
        cursor := Advance(cursor, window);
      }
      n := n + 1;
    }
    if Forward(w) { EndIsExact(w, r, from, to, cursor); }
    if cursor < to { r := r + [Range(cursor, to)]; }
  }

  // ---------- conservation of time ----------

  function Length(rs: seq<Range>): int {
    if rs == [] then 0 else Length(rs[..|rs| - 1]) + (rs[|rs| - 1].end - rs[|rs| - 1].start)
  }

  function Instants(from: int, to: int): set<int> {
    set t | from <= t < to && Within(Range(from, to), t)
  }

  lemma {:induction false} CountInstants(from: int, to: int)
    requires from <= to
    ensures |Instants(from, to)| == to - from
    decreases (to - from)
  {
    if from < to {
      CountInstants(from, to - 1);
      assert Instants(from, to) == Instants(from, to - 1) + {to - 1};
    } else {
      assert Instants(from, to) == {};
    }
  }

  ghost function Closed(rs: seq<Range>, from: int, to: int): set<int> {
    set t | from <= t < to && InSome(rs, t)
  }

  lemma {:induction false} LengthIsCount(rs: seq<Range>, from: int, to: int)
    requires Tidy(rs, from, to)
    ensures Length(rs) == |Closed(rs, from, to)|
    decreases |rs|
  {
    if rs == [] {
      assert Closed(rs, from, to) == {};
    } else {
      var front, last := rs[..|rs| - 1], rs[|rs| - 1];
      assert rs == front + [last];
      OneMoreRange(front, last, from, to);
      LengthIsCount(front, from, to);
      CountInstants(last.start, last.end);
    }
  }

  lemma OneMoreRange(front: seq<Range>, last: Range, from: int, to: int)
    requires Tidy(front + [last], from, to)
    ensures Closed(front + [last], from, to) == Closed(front, from, to) + Instants(last.start, last.end)
    ensures Closed(front, from, to) !! Instants(last.start, last.end) && Tidy(front, from, to)
  {
    var rs := front + [last];
    assert last == rs[|front|];
    forall i | 0 <= i < |front| ensures from <= front[i].start < front[i].end <= to && front[i].end <= last.start {
      assert front[i] == rs[i];
    }
    assert forall i, j :: 0 <= i < j < |front| ==> front[i] == rs[i] && front[j] == rs[j];
    forall t ensures t in Closed(rs, from, to) <==> t in Closed(front, from, to) + Instants(last.start, last.end) {
      Extends(front, last, t);
    }
  }

  /** Closed time and the windows' union inside [from, to) add up to the whole day. */
  lemma ClosedAndOpenMakeTheDay(from: int, to: int, windows: seq<Range>, r: seq<Range>)
    requires from <= to && Tidy(r, from, to)
    requires forall t :: from <= t < to ==> (InSome(r, t) <==> !InSome(windows, t))
    ensures Length(r) + |Closed(windows, from, to)| == to - from
  {
    LengthIsCount(r, from, to);
    CountInstants(from, to);
    assert Closed(r, from, to) + Closed(windows, from, to) == Instants(from, to);
  }
}
