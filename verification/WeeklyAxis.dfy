/** The weekly view's time axis: quarter-hour rows by wall-clock label, shared by all days, with repeated hours apart. */
module WeeklyAxis {
  import opened StableSort

  /** Fifteen minutes in milliseconds. */
  const QUARTER := 900000

  datatype Label = Label(hour: nat, minute: nat)

  /** A row's key is its label and which occurrence of that label within one day it stands for. */
  datatype Row = Row(time: Label, occurrence: nat)

  datatype WeekSlot = WeekSlot(row: Row, instant: int)

  /** A day's first instant and the first instant of the next day. */
  datatype Day = Day(from: int, to: int)

  // ---------- the slots of a day ----------

  function InstantAt(from: int, q: nat): int {
    from + q * QUARTER
  }

  /** How many of the first n quarter hours carry this label. */
  function Occurrences(local: int -> Label, from: int, n: nat, l: Label): nat {
    if n == 0 then 0
    else Occurrences(local, from, n - 1, l) + if local(InstantAt(from, n - 1)) == l then 1 else 0
  }

  function RowAt(local: int -> Label, from: int, q: nat): Row {
    var l := local(InstantAt(from, q));
    Row(l, Occurrences(local, from, q, l))
  }

  ghost predicate SlotsOf(local: int -> Label, day: Day, slots: seq<WeekSlot>) {
    (forall q: nat :: q < |slots| <==> InstantAt(day.from, q) < day.to) &&
    forall q :: 0 <= q < |slots| ==> slots[q] == WeekSlot(RowAt(local, day.from, q), InstantAt(day.from, q))
  }

  function Seen(seen: map<Label, nat>, l: Label): nat {
    if l in seen then seen[l] else 0
  }

  ghost predicate Counted(seen: map<Label, nat>, local: int -> Label, from: int, n: nat) {
    forall l :: Seen(seen, l) == Occurrences(local, from, n, l)
  }

  lemma CountNext(seen: map<Label, nat>, local: int -> Label, from: int, n: nat)
    requires Counted(seen, local, from, n)
    ensures var l := local(InstantAt(from, n)); Counted(seen[l := Seen(seen, l) + 1], local, from, n + 1)
  {
    var l := local(InstantAt(from, n));
    var more := seen[l := Seen(seen, l) + 1];
    forall m ensures Seen(more, m) == Occurrences(local, from, n + 1, m) {
      assert Seen(seen, m) == Occurrences(local, from, n, m);
    }
  }

  method DaySlots(local: int -> Label, day: Day) returns (slots: seq<WeekSlot>)
    ensures SlotsOf(local, day, slots)
  {
    slots := [];
    var seen: map<Label, nat> := map[];
    var instant := day.from;
    while instant < day.to
      invariant instant == InstantAt(day.from, |slots|)
      invariant forall q: nat :: q < |slots| ==> InstantAt(day.from, q) < day.to
      invariant forall q :: 0 <= q < |slots| ==> slots[q] == WeekSlot(RowAt(local, day.from, q), InstantAt(day.from, q))
      invariant Counted(seen, local, day.from, |slots|)
      decreases day.to - instant
    {
      var l := local(instant);
      var occurrence := Seen(seen, l);
      CountNext(seen, local, day.from, |slots|);
      seen := seen[l := occurrence + 1];
      slots := slots + [WeekSlot(Row(l, occurrence), instant)];
      instant := instant + QUARTER;
    }
  }

  // ---------- the axis ----------

  predicate RowLe(a: Row, b: Row) {
    a.time.hour < b.time.hour ||
    (a.time.hour == b.time.hour && a.occurrence < b.occurrence) ||
    (a.time.hour == b.time.hour && a.occurrence == b.occurrence && a.time.minute <= b.time.minute)
  }

  predicate RowLess(a: Row, b: Row) {
    RowLe(a, b) && a != b
  }

  function RowOrder(): (Row, Row) -> bool {
    (a: Row, b: Row) => RowLe(a, b)
  }

  ghost predicate Distinct(rows: seq<Row>) {
    forall i, j :: 0 <= i < j < |rows| ==> rows[i] != rows[j]
  }

  /** `rows.set`: a key already present keeps its place. */
  function Put(rows: seq<Row>, r: Row): (s: seq<Row>)
    ensures Distinct(rows) ==> Distinct(s)
    ensures forall x :: x in s <==> x in rows || x == r
  {
    if r in rows then rows else rows + [r]
  }

  function StandardRow(k: nat): Row {
    Row(Label(k / 4, k % 4 * 15), 0)
  }

  /** A quarter hour of an ordinary day. */
  predicate Standard(r: Row) {
    r.occurrence == 0 && r.time.hour < 24 && r.time.minute in {0, 15, 30, 45}
  }

  lemma StandardIsNumbered(r: Row)
    ensures Standard(r) <==> exists k: nat :: k < 96 && r == StandardRow(k)
  {
    if Standard(r) { assert r == StandardRow(r.time.hour * 4 + r.time.minute / 15); }
  }

  ghost predicate HasRow(slots: seq<WeekSlot>, r: Row) {
    exists q :: 0 <= q < |slots| && slots[q].row == r
  }

  ghost predicate InDays(daySlots: seq<seq<WeekSlot>>, r: Row) {
    exists d :: 0 <= d < |daySlots| && HasRow(daySlots[d], r)
  }

  /** Strictly increasing by hour, occurrence, minute; every row a standard quarter hour or a slot of some day, and all
      of those. */
  ghost predicate IsAxis(axis: seq<Row>, daySlots: seq<seq<WeekSlot>>) {
    (forall i, j :: 0 <= i < j < |axis| ==> RowLess(axis[i], axis[j])) &&
    (forall r :: r in axis <==> Standard(r) || InDays(daySlots, r))
  }

  ghost predicate Indexes(indexes: map<Row, nat>, axis: seq<Row>) {
    (forall r :: r in indexes <==> r in axis) &&
    (forall i :: 0 <= i < |axis| ==> axis[i] in indexes && indexes[axis[i]] == i)
  }

  method StandardRows() returns (rows: seq<Row>)
    ensures Distinct(rows) && forall r :: r in rows <==> Standard(r)
  {
    rows := [];
    var k: nat := 0;
    while k < 96
      invariant k <= 96 && Distinct(rows)
      invariant forall r :: r in rows <==> exists j: nat :: j < k && r == StandardRow(j)
    {
      rows := Put(rows, StandardRow(k));
      k := k + 1;
    }
    forall r ensures r in rows <==> Standard(r) {
      StandardIsNumbered(r);
    }
  }

  method AddSlots(rows: seq<Row>, slots: seq<WeekSlot>) returns (r: seq<Row>)
    requires Distinct(rows)
    ensures Distinct(r) && forall x :: x in r <==> x in rows || HasRow(slots, x)
  {
    r := rows;
    var q: nat := 0;
    while q < |slots|
      invariant q <= |slots| && Distinct(r)
      invariant forall x :: x in r <==> x in rows || exists p :: 0 <= p < q && slots[p].row == x
    {
      r := Put(r, slots[q].row);
      q := q + 1;
    }
  }

  lemma InMoreDays(daySlots: seq<seq<WeekSlot>>, slots: seq<WeekSlot>, r: Row)
    ensures InDays(daySlots + [slots], r) <==> InDays(daySlots, r) || HasRow(slots, r)
  {
    var more := daySlots + [slots];
    if InDays(daySlots, r) {
      var d :| 0 <= d < |daySlots| && HasRow(daySlots[d], r);
      assert HasRow(more[d], r);
    }
    if HasRow(slots, r) { assert HasRow(more[|daySlots|], r); }
  }

  lemma SortedRows(rows: seq<Row>)
    requires Distinct(rows)
    ensures var axis := Sorted(RowOrder(), rows);
            Distinct(axis) && (forall i, j :: 0 <= i < j < |axis| ==> RowLess(axis[i], axis[j])) &&
            forall r :: r in axis <==> r in rows
  {
    var axis := Sorted(RowOrder(), rows);
    SortedSorts(RowOrder(), rows);
    DistinctPermutation(rows, axis);
    forall r ensures r in axis <==> r in rows {
      assert r in multiset(axis) <==> r in multiset(rows);
    }
    forall i, j | 0 <= i < j < |axis| ensures RowLess(axis[i], axis[j]) {
      assert RowOrder()(axis[i], axis[j]);
    }
  }

  lemma DistinctPermutation(rows: seq<Row>, axis: seq<Row>)
    requires Distinct(rows) && multiset(rows) == multiset(axis)
    ensures Distinct(axis)
  {
    forall i, j | 0 <= i < j < |axis| ensures axis[i] != axis[j] {
      OnceOnly(rows, axis[i]);
      if axis[i] == axis[j] { TwiceCounts(axis, i, j); }
    }
  }

  lemma TwiceCounts(axis: seq<Row>, i: nat, j: nat)
    requires i < j < |axis| && axis[i] == axis[j]
    ensures multiset(axis)[axis[i]] >= 2
  {
    assert axis == axis[..j] + axis[j..] && axis[i] in axis[..j] && axis[j] in axis[j..];
    assert multiset(axis) == multiset(axis[..j]) + multiset(axis[j..]);
  }

  lemma {:induction false} OnceOnly(rows: seq<Row>, r: Row)
    requires Distinct(rows)
    ensures multiset(rows)[r] <= 1
  {
    if rows != [] {
      var front, last := rows[..|rows| - 1], rows[|rows| - 1];
      assert rows == front + [last];
      OnceOnly(front, r);
      if last == r { assert r !in front; }
    }
  }

  method WeeklyAxis(days: seq<Day>, local: int -> Label)
    returns (axis: seq<Row>, daySlots: seq<seq<WeekSlot>>, indexes: map<Row, nat>)
    ensures |daySlots| == |days| && forall d :: 0 <= d < |days| ==> SlotsOf(local, days[d], daySlots[d])
    ensures IsAxis(axis, daySlots) && Indexes(indexes, axis)
  {
    var rows := StandardRows();
    daySlots := [];
    while |daySlots| < |days|
      invariant |daySlots| <= |days| && Distinct(rows)
      invariant forall d :: 0 <= d < |daySlots| ==> SlotsOf(local, days[d], daySlots[d])
      invariant forall r :: r in rows <==> Standard(r) || InDays(daySlots, r)
    {
      var slots := DaySlots(local, days[|daySlots|]);
      rows := AddSlots(rows, slots);
      forall r ensures InDays(daySlots + [slots], r) <==> InDays(daySlots, r) || HasRow(slots, r) {
        InMoreDays(daySlots, slots, r);
      }
      daySlots := daySlots + [slots];
    }
    axis := Sorted(RowOrder(), rows);
    SortedRows(rows);
    indexes := IndexAll(axis);
  }

  method IndexAll(axis: seq<Row>) returns (indexes: map<Row, nat>)
    requires Distinct(axis)
    ensures Indexes(indexes, axis)
  {
    indexes := map[];
    var i: nat := 0;
    while i < |axis|
      invariant i <= |axis|
      invariant forall r :: r in indexes <==> r in axis[..i]
      invariant forall j :: 0 <= j < i ==> axis[j] in indexes && indexes[axis[j]] == j
    {
      indexes := indexes[axis[i] := i];
      assert axis[..i + 1] == axis[..i] + [axis[i]];
      i := i + 1;
    }
    assert axis[..i] == axis;
  }

  // ---------- one clock change a day ----------

  function LabelOf(quarter: nat): Label {
    Label(quarter / 4, quarter % 4 * 15)
  }

  /** The first n quarter hours of a day that starts at local 00:00 and whose clocks move by `shift` whole hours at quarter
      `turn`, on the hour. Without a change, shift is 0. */
  ghost predicate ClockDay(local: int -> Label, from: int, n: nat, turn: nat, shift: int) {
    turn % 4 == 0 && turn <= 96 && turn + 4 * shift >= 0 && n + 4 * shift <= 96 &&
    forall q: nat :: q < n ==> local(InstantAt(from, q)) == LabelOf(WallQuarter(turn, shift, q))
  }

  function WallQuarter(turn: nat, shift: int, q: nat): nat
    requires turn + 4 * shift >= 0
  {
    if q < turn then q else q + 4 * shift
  }

  lemma LabelIsInjective(a: nat, b: nat)
    requires LabelOf(a) == LabelOf(b)
    ensures a == b
  {
  }

  /** A label occurs at most once on either side of the clock change. */
  lemma {:induction false} OccurrencesByHalf(local: int -> Label, from: int, n: nat, turn: nat, shift: int, m: nat, x: nat)
    requires ClockDay(local, from, n, turn, shift) && m <= n
    ensures Occurrences(local, from, m, LabelOf(x)) ==
            (if x < turn && x < m then 1 else 0) + (if turn + 4 * shift <= x < m + 4 * shift then 1 else 0)
    decreases m
  {
    if m > 0 {
      OccurrencesByHalf(local, from, n, turn, shift, m - 1, x);
      var y := WallQuarter(turn, shift, m - 1);
      assert local(InstantAt(from, m - 1)) == LabelOf(y);
      if LabelOf(y) == LabelOf(x) { LabelIsInjective(y, x); }
    }
  }

  /** Exactly the quarters just after a clock is put back are second occurrences. */
  lemma SecondOccurrences(local: int -> Label, from: int, n: nat, turn: nat, shift: int, q: nat)
    requires ClockDay(local, from, n, turn, shift) && q < n
    ensures RowAt(local, from, q) ==
            Row(LabelOf(WallQuarter(turn, shift, q)), if turn <= q < turn - 4 * shift then 1 else 0)
  {
    OccurrencesByHalf(local, from, n, turn, shift, q, WallQuarter(turn, shift, q));
    assert local(InstantAt(from, q)) == LabelOf(WallQuarter(turn, shift, q));
  }

  ghost predicate RowsIncrease(local: int -> Label, from: int, n: nat) {
    forall p: nat, q: nat :: p < q < n ==> RowLess(RowAt(local, from, p), RowAt(local, from, q))
  }

  /** The rows of a day increase with time exactly when the clocks are not put back by more than one hour within it. */
  lemma IncreaseIffAtMostOneHourBack(local: int -> Label, from: int, n: nat, turn: nat, shift: int)
    requires ClockDay(local, from, n, turn, shift)
    ensures RowsIncrease(local, from, n) <==> shift >= -1 || n <= turn
  {
    if shift >= -1 || n <= turn {
      forall p: nat, q: nat | p < q < n ensures RowLess(RowAt(local, from, p), RowAt(local, from, q)) {
        SecondOccurrences(local, from, n, turn, shift, p);
        SecondOccurrences(local, from, n, turn, shift, q);
      }
    } else {
      SecondOccurrences(local, from, n, turn, shift, turn - 1);
      SecondOccurrences(local, from, n, turn, shift, turn);
      assert !RowLess(RowAt(local, from, turn - 1), RowAt(local, from, turn));
    }
  }

  // ---------- positions ----------

  ghost predicate Consecutive(slots: seq<WeekSlot>) {
    slots != [] && forall p, q :: 0 <= p <= q < |slots| ==> slots[q].instant == slots[p].instant + (q - p) * QUARTER
  }

  /** The slot that `find` returns, looked for from slot k on. */
  function FindSlot(instant: int, slots: seq<WeekSlot>, k: nat): (r: nat)
    requires Consecutive(slots) && k < |slots| && slots[k].instant <= instant < slots[|slots| - 1].instant + QUARTER
    ensures r < |slots| && slots[r].instant <= instant < slots[r].instant + QUARTER
    decreases |slots| - k
  {
    if instant < slots[k].instant + QUARTER then k else FindSlot(instant, slots, k + 1)
  }

  function WeeklyPosition(instant: int, slots: seq<WeekSlot>, indexes: map<Row, nat>, rowCount: nat): real
    requires Consecutive(slots) && forall q :: 0 <= q < |slots| ==> slots[q].row in indexes
  {
    if instant <= slots[0].instant then 0.0
    else if instant >= slots[|slots| - 1].instant + QUARTER then rowCount as real
    else
      var slot := slots[FindSlot(instant, slots, 0)];
      indexes[slot.row] as real + (instant - slot.instant) as real / QUARTER as real
  }

  /** Later slots of the day stand at larger row numbers of the axis. */
  ghost predicate Climbs(slots: seq<WeekSlot>, indexes: map<Row, nat>, rowCount: nat) {
    (forall q :: 0 <= q < |slots| ==> slots[q].row in indexes && indexes[slots[q].row] < rowCount) &&
    forall p, q :: 0 <= p < q < |slots| ==> indexes[slots[p].row] < indexes[slots[q].row]
  }

  lemma IndexFollowsRows(axis: seq<Row>, indexes: map<Row, nat>, a: Row, b: Row)
    requires Indexes(indexes, axis) && (forall i, j :: 0 <= i < j < |axis| ==> RowLess(axis[i], axis[j]))
    requires a in axis && b in axis && RowLess(a, b)
    ensures indexes[a] < indexes[b] < |axis|
  {
    var i :| 0 <= i < |axis| && axis[i] == a;
    var j :| 0 <= j < |axis| && axis[j] == b;
    assert indexes[axis[i]] == i && indexes[axis[j]] == j;
  }

  lemma SlotHasRow(daySlots: seq<seq<WeekSlot>>, d: nat, q: nat, axis: seq<Row>, indexes: map<Row, nat>)
    requires IsAxis(axis, daySlots) && Indexes(indexes, axis) && d < |daySlots| && q < |daySlots[d]|
    ensures var r := daySlots[d][q].row; r in axis && r in indexes && indexes[r] < |axis|
  {
    var r := daySlots[d][q].row;
    assert HasRow(daySlots[d], r) && InDays(daySlots, r) && r in axis;
    var i :| 0 <= i < |axis| && axis[i] == r;
    assert indexes[axis[i]] == i;
  }

  lemma DayClimbs(local: int -> Label, day: Day, daySlots: seq<seq<WeekSlot>>, d: nat, axis: seq<Row>, indexes: map<Row, nat>,
                  turn: nat, shift: int)
    requires IsAxis(axis, daySlots) && Indexes(indexes, axis) && d < |daySlots| && SlotsOf(local, day, daySlots[d])
    requires ClockDay(local, day.from, |daySlots[d]|, turn, shift) && shift >= -1
    ensures Climbs(daySlots[d], indexes, |axis|)
  {
    var slots := daySlots[d];
    IncreaseIffAtMostOneHourBack(local, day.from, |slots|, turn, shift);
    forall q | 0 <= q < |slots| ensures slots[q].row in axis && slots[q].row in indexes && indexes[slots[q].row] < |axis| {
      SlotHasRow(daySlots, d, q, axis, indexes);
    }
    forall p, q | 0 <= p < q < |slots| ensures indexes[slots[p].row] < indexes[slots[q].row] {
      IndexFollowsRows(axis, indexes, slots[p].row, slots[q].row);
    }
  }

  lemma InsideSlot(instant: int, slots: seq<WeekSlot>, indexes: map<Row, nat>, rowCount: nat)
    requires Consecutive(slots) && Climbs(slots, indexes, rowCount)
    requires slots[0].instant < instant < slots[|slots| - 1].instant + QUARTER
    ensures var i := indexes[slots[FindSlot(instant, slots, 0)].row];
            i as real <= WeeklyPosition(instant, slots, indexes, rowCount) < (i + 1) as real &&
            0.0 < WeeklyPosition(instant, slots, indexes, rowCount) < rowCount as real
  {
    var k := FindSlot(instant, slots, 0);
    var part := (instant - slots[k].instant) as real / QUARTER as real;
    assert 0.0 <= part < 1.0;
    if k > 0 { assert indexes[slots[0].row] < indexes[slots[k].row]; }
  }

  lemma PositionIncreases(a: int, b: int, slots: seq<WeekSlot>, indexes: map<Row, nat>, rowCount: nat)
    requires Consecutive(slots) && Climbs(slots, indexes, rowCount)
    requires slots[0].instant <= a < b <= slots[|slots| - 1].instant + QUARTER
    ensures 0.0 <= WeeklyPosition(a, slots, indexes, rowCount) < WeeklyPosition(b, slots, indexes, rowCount) <= rowCount as real
  {
    var first, end := slots[0].instant, slots[|slots| - 1].instant + QUARTER;
    assert indexes[slots[0].row] < rowCount;
    if first < a { InsideSlot(a, slots, indexes, rowCount); }
    if b < end { InsideSlot(b, slots, indexes, rowCount); }
    if first < a && b < end {
      var i, j := FindSlot(a, slots, 0), FindSlot(b, slots, 0);
      if i == j {
        assert (a - slots[i].instant) as real / QUARTER as real < (b - slots[i].instant) as real / QUARTER as real;
      } else {
        SlotsInOrder(a, b, slots, i, j);
        assert indexes[slots[i].row] + 1 <= indexes[slots[j].row];
      }
    }
  }

  lemma SlotsInOrder(a: int, b: int, slots: seq<WeekSlot>, i: nat, j: nat)
    requires Consecutive(slots) && i < |slots| && j < |slots| && i != j && a < b
    requires slots[i].instant <= a < slots[i].instant + QUARTER && slots[j].instant <= b < slots[j].instant + QUARTER
    ensures i < j
  {
  }

  lemma DayIsConsecutive(local: int -> Label, day: Day, slots: seq<WeekSlot>)
    requires SlotsOf(local, day, slots) && day.from < day.to
    ensures Consecutive(slots) && slots[0].instant == day.from
  {
    assert InstantAt(day.from, 0) < day.to;
  }

  /** On the shared axis of any week, a day with at most one clock change, putting clocks back by at most an hour, is laid
      out in time order: positions stay in [0, rowCount], never decrease, and differ for different instants of the day. */
  lemma PositionFollowsTime(local: int -> Label, day: Day, daySlots: seq<seq<WeekSlot>>, d: nat, axis: seq<Row>,
                            indexes: map<Row, nat>, turn: nat, shift: int, a: int, b: int)
    requires IsAxis(axis, daySlots) && Indexes(indexes, axis) && d < |daySlots| && SlotsOf(local, day, daySlots[d])
    requires day.from < day.to && ClockDay(local, day.from, |daySlots[d]|, turn, shift) && shift >= -1 && a <= b
    ensures Consecutive(daySlots[d]) && Climbs(daySlots[d], indexes, |axis|)
    ensures var slots := daySlots[d];
            var pa, pb := WeeklyPosition(a, slots, indexes, |axis|), WeeklyPosition(b, slots, indexes, |axis|);
            0.0 <= pa <= pb <= |axis| as real && (day.from <= a < b < day.to ==> pa < pb)
  {
    var slots := daySlots[d];
    DayIsConsecutive(local, day, slots);
    DayClimbs(local, day, daySlots, d, axis, indexes, turn, shift);
    var end := slots[|slots| - 1].instant + QUARTER;
    assert !(InstantAt(day.from, |slots|) < day.to) && end == InstantAt(day.from, |slots|);
    var a', b' := Clamp(a, day.from, end), Clamp(b, day.from, end);
    if a' < b' { PositionIncreases(a', b', slots, indexes, |axis|); }
    if a' == b' && day.from < a' < end { InsideSlot(a', slots, indexes, |axis|); }
  }

  /** Within a quarter hour the position moves from its row towards the next at one row in fifteen minutes; a day that starts at
      local midnight starts at the top. */
  lemma PositionInSlot(local: int -> Label, day: Day, daySlots: seq<seq<WeekSlot>>, d: nat, axis: seq<Row>,
                       indexes: map<Row, nat>, turn: nat, shift: int, q: nat, ms: nat)
    requires IsAxis(axis, daySlots) && Indexes(indexes, axis) && d < |daySlots| && SlotsOf(local, day, daySlots[d])
    requires day.from < day.to && ClockDay(local, day.from, |daySlots[d]|, turn, shift) && turn > 0 && shift >= -1
    requires q < |daySlots[d]| && ms < 900000
    ensures Consecutive(daySlots[d]) && Climbs(daySlots[d], indexes, |axis|)
    ensures WeeklyPosition(day.from + q * 900000 + ms, daySlots[d], indexes, |axis|) ==
            indexes[daySlots[d][q].row] as real + ms as real / 900000.0
    ensures indexes[daySlots[d][0].row] == 0
  {
    var slots := daySlots[d];
    DayIsConsecutive(local, day, slots);
    DayClimbs(local, day, daySlots, d, axis, indexes, turn, shift);
    SecondOccurrences(local, day.from, |slots|, turn, shift, 0);
    SlotHasRow(daySlots, d, 0, axis, indexes);
    TopRow(axis, indexes, slots[0].row);
    PositionAt(slots, indexes, |axis|, q, ms);
  }

  lemma PositionAt(slots: seq<WeekSlot>, indexes: map<Row, nat>, rowCount: nat, q: nat, ms: nat)
    requires Consecutive(slots) && Climbs(slots, indexes, rowCount) && q < |slots| && ms < QUARTER
    requires indexes[slots[0].row] == 0
    ensures WeeklyPosition(slots[q].instant + ms, slots, indexes, rowCount) ==
            indexes[slots[q].row] as real + ms as real / QUARTER as real
  {
    var t := slots[q].instant + ms;
    assert slots[q].instant == slots[0].instant + q * QUARTER;
    assert slots[|slots| - 1].instant == slots[q].instant + (|slots| - 1 - q) * QUARTER;
    if t > slots[0].instant { SlotIsUnique(t, slots, FindSlot(t, slots, 0), q); }
  }

  lemma SlotIsUnique(t: int, slots: seq<WeekSlot>, i: nat, j: nat)
    requires Consecutive(slots) && i < |slots| && j < |slots|
    requires slots[i].instant <= t < slots[i].instant + QUARTER && slots[j].instant <= t < slots[j].instant + QUARTER
    ensures i == j
  {
  }

  lemma TopRow(axis: seq<Row>, indexes: map<Row, nat>, r: Row)
    requires Indexes(indexes, axis) && (forall i, j :: 0 <= i < j < |axis| ==> RowLess(axis[i], axis[j])) && r in axis
    requires r == Row(Label(0, 0), 0)
    ensures indexes[r] == 0
  {
    var i :| 0 <= i < |axis| && axis[i] == r;
    assert indexes[axis[i]] == i && (i == 0 || RowLess(axis[0], axis[i]));
  }

  function Clamp(t: int, low: int, high: int): int {
    if t < low then low else if t > high then high else t
  }
}
