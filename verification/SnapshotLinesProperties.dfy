/** Reading the printed lines back, and the block of lines that belongs to a path. */
module SnapshotLinesProperties {
  import opened Options
  import Sequences
  import opened Numerals
  import opened JsonPointer
  import opened AuditDiff
  import opened AuditDiffProperties
  import opened SnapshotLines

  // ---------- a reader of lines ----------

  /** A value, whether a comma followed it, and the lines after it. */
  datatype Reading = NoReading | Reading(value: Json, comma: bool, rest: seq<Line>)

  /** Reads one value, indented by `depth`, from the front. The reader is strict: a comma must stand exactly between two entries
      of a container, keys exactly in objects, and every line at its depth. Paths are not consulted. */
  function ReadValue(ls: seq<Line>, depth: nat): (r: Reading)
    ensures r.Reading? ==> |r.rest| < |ls|
    decreases |ls|, 0
  {
    if ls == [] || ls[0].depth != depth then NoReading
    else
      match ls[0].token
      case Atom(text) => Reading(Scalar(text), ls[0].comma, ls[1..])
      case EmptyArray => Reading(Arr([]), ls[0].comma, ls[1..])
      case EmptyObject => Reading(Obj([]), ls[0].comma, ls[1..])
      case OpenArray => if ls[0].comma then NoReading else ReadItems(ls[1..], depth, [], true)
      case OpenObject => if ls[0].comma then NoReading else ReadFields(ls[1..], depth, [], true)
      case _ => NoReading
  }

  /** `more` says that an entry must follow: at the beginning, and after a comma. */
  function ReadItems(ls: seq<Line>, depth: nat, done: seq<Json>, more: bool): (r: Reading)
    ensures r.Reading? ==> |r.rest| < |ls|
    decreases |ls|, 1
  {
    if ls == [] || ls[0].key.Some? then NoReading
    else if !more then
      if ls[0].token == CloseArray && ls[0].depth == depth then Reading(Arr(done), ls[0].comma, ls[1..]) else NoReading
    else
      var r := ReadValue(ls, depth + 1);
      if r.NoReading? then NoReading else ReadItems(r.rest, depth, done + [r.value], r.comma)
  }

  function ReadFields(ls: seq<Line>, depth: nat, done: seq<Member>, more: bool): (r: Reading)
    ensures r.Reading? ==> |r.rest| < |ls|
    decreases |ls|, 1
  {
    if ls == [] || ls[0].key.Some? != more then NoReading
    else if !more then
      if ls[0].token == CloseObject && ls[0].depth == depth then Reading(Obj(done), ls[0].comma, ls[1..]) else NoReading
    else
      var r := ReadValue(ls, depth + 1);
      if r.NoReading? then NoReading
      else ReadFields(r.rest, depth, done + [Member(ls[0].key.value, r.value)], r.comma)
  }

  // ---------- round trip ----------

  /** The lines of the entries from k on. */
  function TailLines(v: Json, k: nat, path: seq<string>, depth: nat): seq<Line>
    requires k <= |Entries(v)|
    decreases |Entries(v)| - k
  {
    if k == |Entries(v)| then [] else OneEntry(v, k, path, depth) + TailLines(v, k + 1, path, depth)
  }

  lemma TailStep(v: Json, k: nat, path: seq<string>, depth: nat)
    requires k < |Entries(v)|
    ensures TailLines(v, k, path, depth) == OneEntry(v, k, path, depth) + TailLines(v, k + 1, path, depth)
  {
  }

  lemma {:induction false} HeadAndTail(v: Json, k: nat, path: seq<string>, depth: nat)
    requires k <= |Entries(v)|
    ensures EntryLines(v, |Entries(v)|, path, depth) == EntryLines(v, k, path, depth) + TailLines(v, k, path, depth)
    decreases |Entries(v)| - k
  {
    if k < |Entries(v)| {
      HeadAndTail(v, k + 1, path, depth);
      NextEntry(v, k, path, depth);
      TailStep(v, k, path, depth);
      Sequences.Regroup(EntryLines(v, k, path, depth), OneEntry(v, k, path, depth), TailLines(v, k + 1, path, depth));
    }
  }

  lemma FirstLine(v: Json, path: seq<string>, depth: nat, key: Option<string>, comma: bool)
    ensures var l := Lines(v, path, depth, key, comma)[0];
            l.key == key && l.path == path && l.token != CloseArray && l.token != CloseObject
  {
  }

  /** Printer round trip: whatever follows the lines of a value, reading them yields the value and leaves what follows. */
  lemma {:induction false} ReadsBack(v: Json, path: seq<string>, depth: nat, key: Option<string>, comma: bool, rest: seq<Line>)
    ensures ReadValue(Lines(v, path, depth, key, comma) + rest, depth) == Reading(v, comma, rest)
    decreases v, 1, 0
  {
    var ls := Lines(v, path, depth, key, comma) + rest;
    var n := |Entries(v)|;
    if n == 0 {
      assert ls[1..] == rest;
    } else {
      HeadAndTail(v, 0, path, depth);
      var close := [Line(path, depth, None, Closing(v), comma)];
      assert ls[1..] == TailLines(v, 0, path, depth) + (close + rest);
      if v.Arr? {
        ReadsItemsBack(v, 0, path, depth, comma, rest);
      } else {
        ReadsFieldsBack(v, 0, path, depth, comma, rest);
      }
    }
  }

  lemma {:induction false} ReadsItemsBack(v: Json, k: nat, path: seq<string>, depth: nat, comma: bool, rest: seq<Line>)
    requires v.Arr? && k <= |v.items|
    ensures ReadItems(TailLines(v, k, path, depth) + ([Line(path, depth, None, CloseArray, comma)] + rest), depth, v.items[..k],
                      k < |v.items|) == Reading(v, comma, rest)
    decreases v, 0, |v.items| - k
  {
    var end := [Line(path, depth, None, CloseArray, comma)] + rest;
    var ls := TailLines(v, k, path, depth) + end;
    if k == |v.items| {
      assert ls == end && ls[1..] == rest && v.items[..k] == v.items;
    } else {
      var e := Entries(v)[k];
      var more := TailLines(v, k + 1, path, depth) + end;
      assert ls == OneEntry(v, k, path, depth) + more;
      ReadsBack(Nth(v, k), path + [e.segment], depth + 1, e.key, k + 1 < |Entries(v)|, more);
      FirstLine(Nth(v, k), path + [e.segment], depth + 1, e.key, k + 1 < |Entries(v)|);
      assert ls[0] == OneEntry(v, k, path, depth)[0];
      assert v.items[..k] + [v.items[k]] == v.items[..k + 1];
      ReadsItemsBack(v, k + 1, path, depth, comma, rest);
    }
  }

  lemma {:induction false} ReadsFieldsBack(v: Json, k: nat, path: seq<string>, depth: nat, comma: bool, rest: seq<Line>)
    requires v.Obj? && k <= |v.fields|
    ensures ReadFields(TailLines(v, k, path, depth) + ([Line(path, depth, None, CloseObject, comma)] + rest), depth, v.fields[..k],
                       k < |v.fields|) == Reading(v, comma, rest)
    decreases v, 0, |v.fields| - k
  {
    var end := [Line(path, depth, None, CloseObject, comma)] + rest;
    var ls := TailLines(v, k, path, depth) + end;
    if k == |v.fields| {
      assert ls == end && ls[1..] == rest && v.fields[..k] == v.fields;
    } else {
      var e := Entries(v)[k];
      var more := TailLines(v, k + 1, path, depth) + end;
      assert ls == OneEntry(v, k, path, depth) + more;
      ReadsBack(Nth(v, k), path + [e.segment], depth + 1, e.key, k + 1 < |Entries(v)|, more);
      FirstLine(Nth(v, k), path + [e.segment], depth + 1, e.key, k + 1 < |Entries(v)|);
      assert ls[0] == OneEntry(v, k, path, depth)[0];
      assert v.fields[..k] + [Member(e.key.value, Nth(v, k))] == v.fields[..k + 1];
      ReadsFieldsBack(v, k + 1, path, depth, comma, rest);
    }
  }

  // ---------- the block of a path ----------

  ghost predicate AllUnder(ls: seq<Line>, path: seq<string>) {
    forall i :: 0 <= i < |ls| ==> path <= ls[i].path
  }

  ghost predicate NoneUnder(ls: seq<Line>, path: seq<string>) {
    forall i :: 0 <= i < |ls| ==> !(path <= ls[i].path)
  }

  lemma {:induction false} LinesAreUnder(v: Json, path: seq<string>, depth: nat, key: Option<string>, comma: bool)
    ensures AllUnder(Lines(v, path, depth, key, comma), path)
    decreases v, 1, 0
  {
    EntriesAreUnder(v, |Entries(v)|, path, depth);
  }

  lemma {:induction false} EntriesAreUnder(v: Json, n: nat, path: seq<string>, depth: nat)
    requires n <= |Entries(v)|
    ensures AllUnder(EntryLines(v, n, path, depth), path)
    decreases v, 0, n
  {
    if n > 0 {
      EntriesAreUnder(v, n - 1, path, depth);
      OneEntryIsUnder(v, n - 1, path, depth);
      assert AllUnder(OneEntry(v, n - 1, path, depth), path);
    }
  }

  lemma {:induction false} OneEntryIsUnder(v: Json, k: nat, path: seq<string>, depth: nat)
    requires k < |Entries(v)|
    ensures AllUnder(OneEntry(v, k, path, depth), path + [Entries(v)[k].segment])
    decreases v, 0, k
  {
    var e := Entries(v)[k];
    LinesAreUnder(Nth(v, k), path + [e.segment], depth + 1, e.key, k + 1 < |Entries(v)|);
  }

  lemma DistinctEntries(v: Json)
    requires WellFormed(v)
    ensures forall i, j :: 0 <= i < j < |Entries(v)| ==> Entries(v)[i].segment != Entries(v)[j].segment
  {
    forall i, j | 0 <= i < j < |Entries(v)| ensures Entries(v)[i].segment != Entries(v)[j].segment {
      if v.Arr? && Decimal(i) == Decimal(j) { DecimalIsInjective(i, j); }
    }
  }

  /** Lines under one segment are not under another. */
  lemma OtherEntry(ls: seq<Line>, path: seq<string>, segment: string, other: string, rest: seq<string>)
    requires AllUnder(ls, path + [other]) && segment != other
    ensures NoneUnder(ls, path + ([segment] + rest))
  {
    forall i | 0 <= i < |ls| ensures !(path + ([segment] + rest) <= ls[i].path) {
      assert (path + [other])[|path|] == other && (path + ([segment] + rest))[|path|] == segment;
    }
  }

  lemma {:induction false} NoneBefore(v: Json, n: nat, k: nat, path: seq<string>, depth: nat, rest: seq<string>)
    requires WellFormed(v) && n <= k < |Entries(v)|
    ensures NoneUnder(EntryLines(v, n, path, depth), path + ([Entries(v)[k].segment] + rest))
    decreases n
  {
    if n > 0 {
      NoneBefore(v, n - 1, k, path, depth, rest);
      DistinctEntries(v);
      OneEntryIsUnder(v, n - 1, path, depth);
      OtherEntry(OneEntry(v, n - 1, path, depth), path, Entries(v)[k].segment, Entries(v)[n - 1].segment, rest);
    }
  }

  lemma {:induction false} NoneAfter(v: Json, n: nat, k: nat, path: seq<string>, depth: nat, rest: seq<string>)
    requires WellFormed(v) && k < n <= |Entries(v)|
    ensures NoneUnder(TailLines(v, n, path, depth), path + ([Entries(v)[k].segment] + rest))
    decreases |Entries(v)| - n
  {
    if n < |Entries(v)| {
      NoneAfter(v, n + 1, k, path, depth, rest);
      DistinctEntries(v);
      OneEntryIsUnder(v, n, path, depth);
      OtherEntry(OneEntry(v, n, path, depth), path, Entries(v)[k].segment, Entries(v)[n].segment, rest);
    }
  }

  /** The entry that a path segment leads to. */
  lemma EntryOfStep(v: Json, segment: string) returns (k: nat)
    requires Step(Present(v), segment).Present?
    ensures k < |Entries(v)| && Entries(v)[k].segment == segment && Present(Nth(v, k)) == Step(Present(v), segment)
  {
    k := if v.Obj? then Find(v.fields, segment) else IndexOf(segment, Length(Present(v)));
  }

  /** The printed lines cut around the block of one value. */
  datatype Cut = Cut(before: seq<Line>, key: Option<string>, comma: bool, after: seq<Line>)

  /** The lines are the block with what stands before and after it; those at or under the path are exactly the block's. */
  ghost predicate Cuts(ls: seq<Line>, c: Cut, block: seq<Line>, path: seq<string>) {
    ls == c.before + block + c.after && AllUnder(block, path) && NoneUnder(c.before, path) && NoneUnder(c.after, path)
  }

  /** For every path that resolves to a value inside the document: the lines at or under that path form one contiguous
      block, and the block is exactly the rendering of that value. */
  lemma BlockOfPath(v: Json, path: seq<string>, depth: nat, key: Option<string>, comma: bool, at: seq<string>, u: Json)
    returns (c: Cut)
    requires WellFormed(v) && Resolve(Present(v), at) == Present(u)
    ensures Cuts(Lines(v, path, depth, key, comma), c, Lines(u, path + at, depth + |at|, c.key, c.comma), path + at)
  {
    c := BlockAt(v, path, depth, key, comma, at, u, path + at, depth + |at|);
  }

  lemma {:induction false} BlockAt(v: Json, path: seq<string>, depth: nat, key: Option<string>, comma: bool, at: seq<string>,
                                   u: Json, full: seq<string>, d: nat) returns (c: Cut)
    requires WellFormed(v) && Resolve(Present(v), at) == Present(u) && full == path + at && d == depth + |at|
    ensures Cuts(Lines(v, path, depth, key, comma), c, Lines(u, full, d, c.key, c.comma), full)
    decreases |at|
  {
    if at == [] {
      c := Cut([], key, comma, []);
      assert full == path;
      LinesAreUnder(u, path, depth, key, comma);
    } else {
      if Step(Present(v), at[0]).Absent? { NothingUnderNothing(at[1..]); }
      var k := EntryOfStep(v, at[0]);
      c := BlockInEntry(v, k, path, depth, key, comma, at, u, full, d);
    }
  }

  lemma {:induction false} BlockInEntry(v: Json, k: nat, path: seq<string>, depth: nat, key: Option<string>, comma: bool,
                                        at: seq<string>, u: Json, full: seq<string>, d: nat) returns (c: Cut)
    requires WellFormed(v) && k < |Entries(v)| && at != [] && Entries(v)[k].segment == at[0]
    requires Resolve(Present(Nth(v, k)), at[1..]) == Present(u) && full == path + at && d == depth + |at|
    ensures Cuts(Lines(v, path, depth, key, comma), c, Lines(u, full, d, c.key, c.comma), full)
    decreases |at|, 0
  {
    assert full == path + [at[0]] + at[1..];
    var inner := BlockAt(Nth(v, k), path + [at[0]], depth + 1, Entries(v)[k].key, k + 1 < |Entries(v)|, at[1..], u, full, d);
    c := Widen(v, k, path, depth, key, comma, at, Lines(u, full, d, inner.key, inner.comma), inner);
  }

  /** A block inside one entry, seen from the lines of the whole container. */
  lemma Widen(v: Json, k: nat, path: seq<string>, depth: nat, key: Option<string>, comma: bool, at: seq<string>,
              block: seq<Line>, inner: Cut) returns (c: Cut)
    requires WellFormed(v) && k < |Entries(v)| && at != [] && Entries(v)[k].segment == at[0]
    requires Cuts(OneEntry(v, k, path, depth), inner, block, path + at)
    ensures Cuts(Lines(v, path, depth, key, comma), c, block, path + at) && c.key == inner.key && c.comma == inner.comma
  {
    var open, close := [Line(path, depth, key, Opening(v), false)], [Line(path, depth, None, Closing(v), comma)];
    var head, tail := EntryLines(v, k, path, depth), TailLines(v, k + 1, path, depth);
    c := Cut(open + head + inner.before, inner.key, inner.comma, inner.after + tail + close);
    AroundEntry(v, k, path, depth, key, comma);
    Regroup(open, head, inner.before, block, inner.after, tail, close);
    assert at == [at[0]] + at[1..];
    NoneAround(v, k, path, depth, at[1..], key, comma);
    NoneOfThree(open, head, inner.before, path + at);
    NoneOfThree(inner.after, tail, close, path + at);
  }

  lemma AroundEntry(v: Json, k: nat, path: seq<string>, depth: nat, key: Option<string>, comma: bool)
    requires k < |Entries(v)|
    ensures Lines(v, path, depth, key, comma) ==
            [Line(path, depth, key, Opening(v), false)] +
            (EntryLines(v, k, path, depth) + (OneEntry(v, k, path, depth) + TailLines(v, k + 1, path, depth))) +
            [Line(path, depth, None, Closing(v), comma)]
  {
    HeadAndTail(v, k, path, depth);
  }

  lemma Regroup(open: seq<Line>, head: seq<Line>, before: seq<Line>, block: seq<Line>, after: seq<Line>, tail: seq<Line>,
                close: seq<Line>)
    ensures open + (head + ((before + block + after) + tail)) + close ==
            (open + head + before) + block + (after + tail + close)
  {
  }

  lemma NoneOfThree(a: seq<Line>, b: seq<Line>, c: seq<Line>, path: seq<string>)
    requires NoneUnder(a, path) && NoneUnder(b, path) && NoneUnder(c, path)
    ensures NoneUnder(a + b + c, path)
  {
  }

  lemma NoneAround(v: Json, k: nat, path: seq<string>, depth: nat, rest: seq<string>, key: Option<string>, comma: bool)
    requires WellFormed(v) && k < |Entries(v)|
    ensures var at := path + ([Entries(v)[k].segment] + rest);
            NoneUnder(EntryLines(v, k, path, depth), at) && NoneUnder(TailLines(v, k + 1, path, depth), at) &&
            NoneUnder([Line(path, depth, key, Opening(v), false)], at) &&
            NoneUnder([Line(path, depth, None, Closing(v), comma)], at)
  {
    NoneBefore(v, k, k, path, depth, rest);
    NoneAfter(v, k + 1, k, path, depth, rest);
  }

  // ---------- what the limits see ----------

  predicate Closes(t: Token) { t == CloseArray || t == CloseObject }

  /** Line k opens the value that is rendered last: after it there are only closing brackets. */
  ghost predicate LastAt(ls: seq<Line>, k: nat) {
    k < |ls| && !Closes(ls[k].token) && forall i :: k < i < |ls| ==> Closes(ls[i].token)
  }

  /** The line limit is tested against the number of lines before the value that is rendered last. */
  lemma {:induction false} LastStartIsLast(v: Json, path: seq<string>, depth: nat, key: Option<string>, comma: bool)
    ensures LastAt(Lines(v, path, depth, key, comma), LastStart(v))
    decreases v
  {
    var n := |Entries(v)|;
    if n > 0 {
      var e := Entries(v)[n - 1];
      LastStartIsLast(Nth(v, n - 1), path + [e.segment], depth + 1, e.key, false);
      LastEntryIsLast(v, path, depth, key, comma);
    }
  }

  lemma LastEntryIsLast(v: Json, path: seq<string>, depth: nat, key: Option<string>, comma: bool)
    requires Entries(v) != []
    requires LastAt(OneEntry(v, |Entries(v)| - 1, path, depth), LastStart(Nth(v, |Entries(v)| - 1)))
    ensures LastAt(Lines(v, path, depth, key, comma), LastStart(v))
  {
    var n := |Entries(v)|;
    LastStartOf(v, path, depth);
    LinesOf(v, path, depth, key, comma);
    LastPart([Line(path, depth, key, Opening(v), false)], EntryLines(v, n - 1, path, depth), OneEntry(v, n - 1, path, depth),
             [Line(path, depth, None, Closing(v), comma)], LastStart(Nth(v, n - 1)));
  }

  lemma LastStartOf(v: Json, path: seq<string>, depth: nat)
    requires Entries(v) != []
    ensures var n := |Entries(v)|; LastStart(v) == 1 + |EntryLines(v, n - 1, path, depth)| + LastStart(Nth(v, n - 1))
  {
    EntryCountIgnoresPlace(v, |Entries(v)| - 1, path, depth, [], 0);
  }

  lemma LinesOf(v: Json, path: seq<string>, depth: nat, key: Option<string>, comma: bool)
    requires Entries(v) != []
    ensures var n := |Entries(v)|;
            Lines(v, path, depth, key, comma) ==
            [Line(path, depth, key, Opening(v), false)] + (EntryLines(v, n - 1, path, depth) + OneEntry(v, n - 1, path, depth)) +
            [Line(path, depth, None, Closing(v), comma)]
  {
    NextEntry(v, |Entries(v)| - 1, path, depth);
  }

  lemma LastPart(open: seq<Line>, front: seq<Line>, last: seq<Line>, close: seq<Line>, k: nat)
    requires |open| == 1 && LastAt(last, k) && |close| == 1 && Closes(close[0].token)
    ensures LastAt(open + (front + last) + close, 1 + |front| + k)
  {
    var ls := open + (front + last) + close;
    assert ls[1 + |front| + k] == last[k];
    forall i | 1 + |front| + k < i < |ls| ensures Closes(ls[i].token) {
      if i < |ls| - 1 { assert ls[i] == last[i - 1 - |front|]; }
    }
  }

  ghost predicate Reaches(ls: seq<Line>, depth: nat) {
    (forall i :: 0 <= i < |ls| ==> ls[i].depth <= depth) && exists i :: 0 <= i < |ls| && ls[i].depth == depth
  }

  /** The depth limit is tested against the deepest line. */
  lemma {:induction false} DepthIsDeepestLine(v: Json, path: seq<string>, depth: nat, key: Option<string>, comma: bool)
    ensures Reaches(Lines(v, path, depth, key, comma), depth + Depth(v))
    decreases v, 1, 0
  {
    if Entries(v) == [] {
      FlatIsShallow(v, path, depth, key, comma);
    } else {
      EntriesReach(v, |Entries(v)|, path, depth);
      LinesOf(v, path, depth, key, comma);
      NextEntry(v, |Entries(v)| - 1, path, depth);
      FrameReaches([Line(path, depth, key, Opening(v), false)], EntryLines(v, |Entries(v)|, path, depth),
                   [Line(path, depth, None, Closing(v), comma)], depth + Depth(v));
    }
  }

  lemma FlatIsShallow(v: Json, path: seq<string>, depth: nat, key: Option<string>, comma: bool)
    requires Entries(v) == []
    ensures Reaches(Lines(v, path, depth, key, comma), depth + Depth(v))
  {
    assert Lines(v, path, depth, key, comma)[0].depth == depth;
  }

  lemma FrameReaches(open: seq<Line>, inner: seq<Line>, close: seq<Line>, d: nat)
    requires Reaches(inner, d) && |open| == 1 == |close| && open[0].depth <= d && close[0].depth <= d
    ensures Reaches(open + inner + close, d)
  {
    var i :| 0 <= i < |inner| && inner[i].depth == d;
    assert (open + inner + close)[i + 1] == inner[i];
  }

  lemma {:induction false} EntriesReach(v: Json, n: nat, path: seq<string>, depth: nat)
    requires 0 < n <= |Entries(v)|
    ensures Reaches(EntryLines(v, n, path, depth), depth + DepthFirst(v, n))
    decreases v, 0, n
  {
    EntryReaches(v, n - 1, path, depth);
    if n > 1 { EntriesReach(v, n - 1, path, depth); }
    OneMoreReaches(v, n - 1, path, depth);
  }

  lemma {:induction false} EntryReaches(v: Json, k: nat, path: seq<string>, depth: nat)
    requires k < |Entries(v)|
    ensures Reaches(OneEntry(v, k, path, depth), depth + 1 + Depth(Nth(v, k)))
    decreases v, 0, k
  {
    var e := Entries(v)[k];
    DepthIsDeepestLine(Nth(v, k), path + [e.segment], depth + 1, e.key, k + 1 < |Entries(v)|);
  }

  lemma OneMoreReaches(v: Json, k: nat, path: seq<string>, depth: nat)
    requires k < |Entries(v)| && Reaches(OneEntry(v, k, path, depth), depth + 1 + Depth(Nth(v, k)))
    requires k > 0 ==> Reaches(EntryLines(v, k, path, depth), depth + DepthFirst(v, k))
    ensures Reaches(EntryLines(v, k + 1, path, depth), depth + DepthFirst(v, k + 1))
  {
    NextEntry(v, k, path, depth);
    if k > 0 {
      ReachesTogether(EntryLines(v, k, path, depth), OneEntry(v, k, path, depth), depth + DepthFirst(v, k),
                      depth + 1 + Depth(Nth(v, k)));
    } else {
      NoEntriesYet(v, path, depth);
      assert [] + OneEntry(v, k, path, depth) == OneEntry(v, k, path, depth);
    }
  }

  lemma NoEntriesYet(v: Json, path: seq<string>, depth: nat)
    ensures EntryLines(v, 0, path, depth) == [] && DepthFirst(v, 0) == 0
  {
  }

  lemma ReachesTogether(a: seq<Line>, b: seq<Line>, d: nat, e: nat)
    requires Reaches(a, d) && Reaches(b, e)
    ensures Reaches(a + b, if d < e then e else d)
  {
    var i :| 0 <= i < |a| && a[i].depth == d;
    var j :| 0 <= j < |b| && b[j].depth == e;
    assert (a + b)[i] == a[i] && (a + b)[|a| + j] == b[j];
  }
}
