/** First-fit packing of half-open time spans into lanes, as both calendar views do it. */
module LaneLayout {
  import opened StableSort

  /** `id` is the place of the source identifier in the collation order. */
  datatype Span = Span(id: int, start: int, end: int)

  predicate Covers(s: Span, t: int) {
    s.start <= t < s.end
  }

  ghost predicate Overlap(a: Span, b: Span) {
    exists t :: Covers(a, t) && Covers(b, t)
  }

  lemma OverlapIff(a: Span, b: Span)
    ensures Overlap(a, b) <==> a.start < a.end && b.start < b.end && a.start < b.end && b.start < a.end
  {
    if a.start < a.end && b.start < b.end && a.start < b.end && b.start < a.end {
      var t := if a.start < b.start then b.start else a.start;
      assert Covers(a, t) && Covers(b, t);
    }
  }

  ghost predicate Positive(s: seq<Span>) {
    forall i :: 0 <= i < |s| ==> s[i].start < s[i].end
  }

  // ---------- ordering ----------

  /** Both comparators go by start first; they differ in which of two simultaneous starts comes first. */
  datatype Order = LongestFirst | ShortestFirst

  predicate Before(o: Order, a: Span, b: Span) {
    a.start < b.start ||
    (a.start == b.start && (if o.LongestFirst? then a.end > b.end else a.end < b.end)) ||
    (a.start == b.start && a.end == b.end && a.id <= b.id)
  }

  function Comparator(o: Order): (Span, Span) -> bool {
    (a: Span, b: Span) => Before(o, a, b)
  }

  ghost predicate ByStart(s: seq<Span>) {
    forall i, j :: 0 <= i < j < |s| ==> s[i].start <= s[j].start
  }

  /** By start; of those that start together the longest or the shortest first; of those that also end together by identifier. */
  ghost predicate InOrder(s: seq<Span>, longestFirst: bool) {
    forall i, j :: 0 <= i < j < |s| ==>
      && s[i].start <= s[j].start
      && (s[i].start == s[j].start ==> if longestFirst then s[i].end >= s[j].end else s[i].end <= s[j].end)
      && (s[i].start == s[j].start && s[i].end == s[j].end ==> s[i].id <= s[j].id)
  }

  lemma SortedByStart(o: Order, s: seq<Span>)
    ensures InOrder(Sorted(Comparator(o), s), o.LongestFirst?)
    ensures multiset(Sorted(Comparator(o), s)) == multiset(s)
    ensures Ordered(Comparator(o), Sorted(Comparator(o), s)) && ByStart(Sorted(Comparator(o), s))
    ensures Positive(s) ==> Positive(Sorted(Comparator(o), s))
  {
    SortedSorts(Comparator(o), s);
    var r := Sorted(Comparator(o), s);
    forall i, j | 0 <= i < j < |r| ensures Before(o, r[i], r[j]) {
      assert Comparator(o)(r[i], r[j]);
    }
    if Positive(s) {
      forall i | 0 <= i < |r| ensures r[i].start < r[i].end {
        assert r[i] in multiset(r) && r[i] in s;
      }
    }
  }


  // ---------- first fit ----------

  /** The lane `findIndex` picks: the first one free at `start`, or a new one. */
  ghost predicate FirstFit(ends: seq<int>, start: int, lane: nat) {
    lane <= |ends| && (forall l :: 0 <= l < lane ==> ends[l] > start) && (lane < |ends| ==> ends[lane] <= start)
  }

  method FindLane(ends: seq<int>, start: int) returns (lane: nat)
    ensures FirstFit(ends, start, lane)
  {
    lane := 0;
    while lane < |ends| && ends[lane] > start
      invariant lane <= |ends|
      invariant forall l :: 0 <= l < lane ==> ends[l] > start
    {
      lane := lane + 1;
    }
  }

  /** `ends[lane] = end`, which appends when the lane is new. */
  function PutEnd(ends: seq<int>, lane: nat, end: int): (r: seq<int>)
    requires lane <= |ends|
  {
    if lane < |ends| then ends[lane := end] else ends + [end]
  }

  /** What a run of first fit leaves behind: the end of each lane, the event that set it, and a tower of events, one per
      lane, that all cover the instant at which the newest lane was opened. */
  datatype Packing = Packing(ends: seq<int>, holders: seq<nat>, tower: seq<nat>, peak: int)

  const EMPTY_PACKING := Packing([], [], [], 0)

  ghost predicate LanesDisjoint(s: seq<Span>, lanes: seq<nat>, g: nat, h: nat)
    requires h <= |s| && h <= |lanes|
  {
    forall j, k :: g <= j < k < h && lanes[j] == lanes[k] ==> s[j].end <= s[k].start
  }

  ghost predicate LanesBelow(lanes: seq<nat>, g: nat, h: nat, n: nat)
    requires h <= |lanes|
  {
    forall j :: g <= j < h ==> lanes[j] < n
  }

  /** An earlier event of the group is still running in lane l when event k starts. */
  ghost predicate Occupied(s: seq<Span>, lanes: seq<nat>, g: nat, k: nat, l: nat)
    requires k < |s| && k <= |lanes|
  {
    exists j :: g <= j < k && lanes[j] == l && s[j].end > s[k].start
  }

  /** Every event stands in the first lane that was free. */
  ghost predicate Leftmost(s: seq<Span>, lanes: seq<nat>, g: nat, h: nat)
    requires h <= |s| && h <= |lanes|
  {
    forall k, l :: g <= k < h && 0 <= l < lanes[k] ==> Occupied(s, lanes, g, k, l)
  }

  ghost predicate Holds(s: seq<Span>, lanes: seq<nat>, g: nat, h: nat, p: Packing)
    requires h <= |s| && h <= |lanes|
  {
    |p.holders| == |p.ends| &&
    (forall l :: 0 <= l < |p.ends| ==>
      g <= p.holders[l] < h && lanes[p.holders[l]] == l && s[p.holders[l]].end == p.ends[l]) &&
    (forall j :: g <= j < h && lanes[j] < |p.ends| ==> j == p.holders[lanes[j]] || s[j].end <= s[p.holders[lanes[j]]].start)
  }

  ghost predicate Towers(s: seq<Span>, lanes: seq<nat>, g: nat, h: nat, p: Packing)
    requires h <= |s| && h <= |lanes|
  {
    |p.tower| == |p.ends| &&
    forall l :: 0 <= l < |p.tower| ==>
      g <= p.tower[l] < h && lanes[p.tower[l]] == l && Covers(s[p.tower[l]], p.peak)
  }

  ghost predicate Packed(s: seq<Span>, lanes: seq<nat>, g: nat, h: nat, p: Packing)
    requires g <= h <= |s| && h <= |lanes|
  {
    LanesDisjoint(s, lanes, g, h) && LanesBelow(lanes, g, h, |p.ends|) && Leftmost(s, lanes, g, h) && Holds(s, lanes, g, h, p) &&
    (Positive(s) ==> Towers(s, lanes, g, h, p))
  }

  ghost function NextPacking(p: Packing, s: seq<Span>, i: nat, lane: nat): Packing
    requires i < |s| && lane <= |p.ends| == |p.holders|
  {
    if lane < |p.ends|
    then p.(ends := p.ends[lane := s[i].end], holders := p.holders[lane := i])
    else Packing(p.ends + [s[i].end], p.holders + [i], p.holders + [i], s[i].start)
  }

  lemma PackNext(s: seq<Span>, lanes: seq<nat>, g: nat, p: Packing, lane: nat)
    requires ByStart(s) && g <= |lanes| < |s|
    requires Packed(s, lanes, g, |lanes|, p) && FirstFit(p.ends, s[|lanes|].start, lane)
    ensures var q := NextPacking(p, s, |lanes|, lane);
            Packed(s, lanes + [lane], g, |lanes| + 1, q) && q.ends == PutEnd(p.ends, lane, s[|lanes|].end)
  {
    NextDisjoint(s, lanes, g, p, lane);
    NextHolds(s, lanes, g, p, lane);
    NextLeftmost(s, lanes, g, p, lane);
    if Positive(s) { NextTowers(s, lanes, g, p, lane); }
  }

  lemma NextDisjoint(s: seq<Span>, lanes: seq<nat>, g: nat, p: Packing, lane: nat)
    requires ByStart(s) && g <= |lanes| < |s|
    requires LanesDisjoint(s, lanes, g, |lanes|) && LanesBelow(lanes, g, |lanes|, |p.ends|) && Holds(s, lanes, g, |lanes|, p)
    requires FirstFit(p.ends, s[|lanes|].start, lane)
    ensures LanesDisjoint(s, lanes + [lane], g, |lanes| + 1)
    ensures forall j :: g <= j < |lanes| && lanes[j] == lane ==> s[j].end <= s[|lanes|].start
  {
    var i := |lanes|;
    forall j | g <= j < i && lanes[j] == lane ensures s[j].end <= s[i].start {
      if j != p.holders[lane] { assert s[p.holders[lane]].start <= s[i].start; }
    }
  }

  lemma NextHolds(s: seq<Span>, lanes: seq<nat>, g: nat, p: Packing, lane: nat)
    requires g <= |lanes| < |s| && lane <= |p.ends|
    requires LanesBelow(lanes, g, |lanes|, |p.ends|) && Holds(s, lanes, g, |lanes|, p)
    requires forall j :: g <= j < |lanes| && lanes[j] == lane ==> s[j].end <= s[|lanes|].start
    ensures Holds(s, lanes + [lane], g, |lanes| + 1, NextPacking(p, s, |lanes|, lane))
  {
    var i, q, next := |lanes|, NextPacking(p, s, |lanes|, lane), lanes + [lane];
    forall l | 0 <= l < |q.ends|
      ensures g <= q.holders[l] < i + 1 && next[q.holders[l]] == l && s[q.holders[l]].end == q.ends[l]
    {
      if l == lane { assert q.holders[l] == i; } else { assert q.holders[l] == p.holders[l] && q.ends[l] == p.ends[l]; }
    }
    forall j | g <= j < i + 1 && next[j] < |q.ends|
      ensures j == q.holders[next[j]] || s[j].end <= s[q.holders[next[j]]].start
    {
      if j < i && lanes[j] != lane { assert q.holders[lanes[j]] == p.holders[lanes[j]]; }
    }
  }

  lemma NextLeftmost(s: seq<Span>, lanes: seq<nat>, g: nat, p: Packing, lane: nat)
    requires g <= |lanes| < |s| && Leftmost(s, lanes, g, |lanes|) && Holds(s, lanes, g, |lanes|, p)
    requires FirstFit(p.ends, s[|lanes|].start, lane)
    ensures Leftmost(s, lanes + [lane], g, |lanes| + 1)
  {
    var next := lanes + [lane];
    forall k, l | g <= k < |next| && 0 <= l < next[k] ensures Occupied(s, next, g, k, l) {
      if k < |lanes| {
        assert Occupied(s, lanes, g, k, l);
        var j :| g <= j < k && lanes[j] == l && s[j].end > s[k].start;
        assert next[j] == l;
      } else {
        assert next[p.holders[l]] == l && s[p.holders[l]].end == p.ends[l];
      }
    }
  }

  lemma NextTowers(s: seq<Span>, lanes: seq<nat>, g: nat, p: Packing, lane: nat)
    requires ByStart(s) && Positive(s) && g <= |lanes| < |s|
    requires Holds(s, lanes, g, |lanes|, p) && Towers(s, lanes, g, |lanes|, p)
    requires FirstFit(p.ends, s[|lanes|].start, lane)
    ensures Towers(s, lanes + [lane], g, |lanes| + 1, NextPacking(p, s, |lanes|, lane))
  {
    var i, q, next := |lanes|, NextPacking(p, s, |lanes|, lane), lanes + [lane];
    forall l | 0 <= l < |q.tower|
      ensures g <= q.tower[l] < i + 1 && next[q.tower[l]] == l && Covers(s[q.tower[l]], q.peak)
    {
      if lane == |p.ends| && l < lane { assert q.tower[l] == p.holders[l]; }
    }
  }

  // ---------- simultaneous overlap ----------

  ghost function At(s: seq<Span>, g: nat, h: nat, t: int): set<nat>
    requires h <= |s|
  {
    set j: nat | g <= j < h && Covers(s[j], t)
  }

  /** `n` is the maximum number of spans of s[g..h) that cover one instant. */
  ghost predicate IsPeak(s: seq<Span>, g: nat, h: nat, n: nat)
    requires h <= |s|
  {
    (forall t :: |At(s, g, h, t)| <= n) && (exists t :: |At(s, g, h, t)| == n)
  }

  lemma {:induction false} NoMoreThanLanes(members: set<nat>, lanes: seq<nat>, n: nat)
    requires forall j :: j in members ==> j < |lanes| && lanes[j] < n
    requires forall j, k :: j in members && k in members && j != k ==> lanes[j] != lanes[k]
    ensures |members| <= n
    decreases n
  {
    if n > 0 {
      if j :| j in members && lanes[j] == n - 1 {
        NoMoreThanLanes(members - {j}, lanes, n - 1);
      } else {
        NoMoreThanLanes(members, lanes, n - 1);
      }
    } else if j :| j in members {
      assert false;
    }
  }

  lemma {:induction false} AtLeastTower(members: set<nat>, lanes: seq<nat>, tower: seq<nat>)
    requires forall l :: 0 <= l < |tower| ==> tower[l] in members && tower[l] < |lanes| && lanes[tower[l]] == l
    ensures |members| >= |tower|
    decreases |tower|
  {
    if tower != [] {
      var last := |tower| - 1;
      AtLeastTower(members - {tower[last]}, lanes, tower[..last]);
    }
  }

  /** First fit uses exactly as many lanes as spans meet at the busiest instant. */
  lemma PackedIsPeak(s: seq<Span>, lanes: seq<nat>, g: nat, h: nat, p: Packing)
    requires ByStart(s) && Positive(s) && g <= h <= |s| && h <= |lanes| && Packed(s, lanes, g, h, p)
    ensures IsPeak(s, g, h, |p.ends|)
  {
    forall t ensures |At(s, g, h, t)| <= |p.ends| {
      NoMoreThanLanes(At(s, g, h, t), lanes, |p.ends|);
    }
    AtLeastTower(At(s, g, h, p.peak), lanes, p.tower);
    assert |At(s, g, h, p.peak)| == |p.ends|;
  }
}
