/** snapshotLines (auditDiff.ts): the pretty printer whose lines carry the path of the value they belong to.

    A line is kept as its parts: the indentation depth, the key before the colon, what stands on the line, the comma.
    JSON.stringify of a scalar or key is taken as an injective token. */
module SnapshotLines {
  import opened Options
  import Sequences
  import opened Numerals
  import opened JsonPointer
  import opened AuditDiff

  datatype Token = Atom(text: string) | EmptyArray | EmptyObject | OpenArray | OpenObject | CloseArray | CloseObject

  datatype Line = Line(path: seq<string>, depth: nat, key: Option<string>, token: Token, comma: bool)

  datatype Entry = Entry(segment: string, key: Option<string>, value: Json)

  const LINE_LIMIT := 3000

  /** The entries of a container, in order. */
  function Entries(v: Json): seq<Entry> {
    match v
    case Scalar(_) => []
    case Arr(items) => seq(|items|, i requires 0 <= i < |items| => Entry(Decimal(i), None, items[i]))
    case Obj(fields) => seq(|fields|, i requires 0 <= i < |fields| => Entry(fields[i].key, Some(fields[i].key), fields[i].value))
  }

  /** The value of one entry. */
  function Nth(v: Json, k: nat): (w: Json)
    requires k < |Entries(v)|
    ensures w < v && w == Entries(v)[k].value
  {
    if v.Arr? then v.items[k] else v.fields[k].value
  }

  /** What a value without entries puts on its only line, and what opens and closes one with entries. */
  function Whole(v: Json): Token {
    match v case Scalar(text) => Atom(text) case Arr(_) => EmptyArray case Obj(_) => EmptyObject
  }

  function Opening(v: Json): Token { if v.Arr? then OpenArray else OpenObject }
  function Closing(v: Json): Token { if v.Arr? then CloseArray else CloseObject }

  /** The lines of a value. */
  function Lines(v: Json, path: seq<string>, depth: nat, key: Option<string>, comma: bool): (ls: seq<Line>)
    ensures ls != []
    decreases v, 1, 0
  {
    var es := Entries(v);
    if es == [] then [Line(path, depth, key, Whole(v), comma)]
    else
      [Line(path, depth, key, Opening(v), false)] + EntryLines(v, |es|, path, depth) +
      [Line(path, depth, None, Closing(v), comma)]
  }

  /** The lines of the first n entries of a container at the given path. */
  function EntryLines(v: Json, n: nat, path: seq<string>, depth: nat): seq<Line>
    requires n <= |Entries(v)|
    decreases v, 0, n
  {
    if n == 0 then []
    else EntryLines(v, n - 1, path, depth) + OneEntry(v, n - 1, path, depth)
  }

  function OneEntry(v: Json, k: nat, path: seq<string>, depth: nat): seq<Line>
    requires k < |Entries(v)|
    decreases v, 0, k
  {
    var e := Entries(v)[k];
    Lines(Nth(v, k), path + [e.segment], depth + 1, e.key, k + 1 < |Entries(v)|)
  }

  // ---------- the printer and its limits ----------

  /** How deep the value goes. */
  function Depth(v: Json): nat
    decreases v, 1, 0
  {
    DepthFirst(v, |Entries(v)|)
  }

  function DepthFirst(v: Json, n: nat): nat
    requires n <= |Entries(v)|
    decreases v, 0, n
  {
    if n == 0 then 0
    else
      var d, e := DepthFirst(v, n - 1), 1 + Depth(Nth(v, n - 1));
      if d < e then e else d
  }

  /** How many lines stand before the first line of the value rendered last: the largest count that the limit sees. */
  function LastStart(v: Json): nat
    decreases v
  {
    var n := |Entries(v)|;
    if n == 0 then 0 else 1 + |EntryLines(v, n - 1, [], 0)| + LastStart(Nth(v, n - 1))
  }

  lemma {:induction false} CountIgnoresPlace(v: Json, p: seq<string>, d: nat, k: Option<string>, c: bool,
                                             q: seq<string>, e: nat, l: Option<string>, b: bool)
    ensures |Lines(v, p, d, k, c)| == |Lines(v, q, e, l, b)|
    decreases v, 1, 0
  {
    EntryCountIgnoresPlace(v, |Entries(v)|, p, d, q, e);
  }

  lemma {:induction false} EntryCountIgnoresPlace(v: Json, n: nat, p: seq<string>, d: nat, q: seq<string>, e: nat)
    requires n <= |Entries(v)|
    ensures |EntryLines(v, n, p, d)| == |EntryLines(v, n, q, e)|
    decreases v, 0, n
  {
    if n > 0 {
      EntryCountIgnoresPlace(v, n - 1, p, d, q, e);
      var x := Entries(v)[n - 1];
      var more := n < |Entries(v)|;
      CountIgnoresPlace(Nth(v, n - 1), p + [x.segment], d + 1, x.key, more, q + [x.segment], e + 1, x.key, more);
    }
  }

  class Printer {
    var lines: seq<Line>

    constructor ()
      ensures lines == []
    {
      lines := [];
    }

    /** render: it ends normally exactly when every value starts within the line limit and no deeper than the depth limit,
        and then it has appended the lines of the value. */
    method Render(v: Json, path: seq<string>, depth: nat, key: Option<string>, comma: bool) returns (ok: bool)
      modifies this
      ensures ok <==> |old(lines)| + LastStart(v) <= LINE_LIMIT && depth + Depth(v) <= DEPTH_LIMIT
      ensures ok ==> lines == old(lines) + Lines(v, path, depth, key, comma)
      decreases v, 1, 0
    {
      if |lines| > LINE_LIMIT || depth > DEPTH_LIMIT { return false; }
      var es := Entries(v);
      if es == [] {
        lines := lines + [Line(path, depth, key, Whole(v), comma)];
        return true;
      }
      lines := lines + [Line(path, depth, key, Opening(v), false)];
      FitsWhenLastFits(v, |lines| - 1, depth);
      ok := RenderEntries(v, path, depth);
      if ok { lines := lines + [Line(path, depth, None, Closing(v), comma)]; }
    }

    method RenderEntries(v: Json, path: seq<string>, depth: nat) returns (ok: bool)
      modifies this
      ensures ok <==> Fits(v, |Entries(v)|, |old(lines)|, depth)
      ensures ok ==> lines == old(lines) + EntryLines(v, |Entries(v)|, path, depth)
      decreases v, 0, |Entries(v)|
    {
      ghost var start := lines;
      var n := |Entries(v)|;
      var i := 0;
      ok := true;
      while i < n && ok
        invariant i <= n
        invariant ok ==> lines == After(start, v, i, path, depth) && Fits(v, i, |start|, depth)
        invariant !ok ==> !Fits(v, n, |start|, depth)
        decreases n - i, ok
      {
        AfterNext(start, v, i, path, depth);
        FitsNext(v, i, |start|, depth);
        ok := RenderEntry(v, i, path, depth);
        if ok { i := i + 1; }
      }
    }

    method RenderEntry(v: Json, i: nat, path: seq<string>, depth: nat) returns (ok: bool)
      requires i < |Entries(v)|
      modifies this
      ensures ok <==> |old(lines)| + LastStart(Nth(v, i)) <= LINE_LIMIT &&
                      depth + 1 + Depth(Nth(v, i)) <= DEPTH_LIMIT
      ensures ok ==> lines == old(lines) + OneEntry(v, i, path, depth)
      decreases v, 0, i
    {
      var e := Entries(v)[i];
      ok := Render(Nth(v, i), path + [e.segment], depth + 1, e.key, i + 1 < |Entries(v)|);
    }
  }

  function After(start: seq<Line>, v: Json, n: nat, path: seq<string>, depth: nat): seq<Line>
    requires n <= |Entries(v)|
  {
    start + EntryLines(v, n, path, depth)
  }

  lemma AfterNext(start: seq<Line>, v: Json, i: nat, path: seq<string>, depth: nat)
    requires i < |Entries(v)|
    ensures After(start, v, i + 1, path, depth) == After(start, v, i, path, depth) + OneEntry(v, i, path, depth)
    ensures |After(start, v, i, path, depth)| + LastStart(Nth(v, i)) == |start| + EntryStart(v, i)
  {
    EntryCountIgnoresPlace(v, i, path, depth, [], 0);
    NextEntry(v, i, path, depth);
    Sequences.Regroup(start, EntryLines(v, i, path, depth), OneEntry(v, i, path, depth));
  }

  ghost predicate Early(v: Json, n: nat, start: nat)
    requires n <= |Entries(v)|
  {
    forall i :: 0 <= i < n ==> start + EntryStart(v, i) <= LINE_LIMIT
  }

  ghost predicate Shallow(v: Json, n: nat, depth: nat)
    requires n <= |Entries(v)|
  {
    forall i :: 0 <= i < n ==> depth + 1 + Depth(Nth(v, i)) <= DEPTH_LIMIT
  }

  /** The first n entries, printed after `start` lines at the given depth, stay within both limits. */
  ghost predicate Fits(v: Json, n: nat, start: nat, depth: nat)
    requires n <= |Entries(v)|
  {
    Early(v, n, start) && Shallow(v, n, depth)
  }

  lemma FitsNext(v: Json, i: nat, start: nat, depth: nat)
    requires i < |Entries(v)|
    ensures Fits(v, i + 1, start, depth) <==>
              Fits(v, i, start, depth) && start + EntryStart(v, i) <= LINE_LIMIT && depth + 1 + Depth(Nth(v, i)) <= DEPTH_LIMIT
    ensures Fits(v, |Entries(v)|, start, depth) ==> Fits(v, i + 1, start, depth)
  {
    ShallowNext(v, i, depth);
  }

  lemma EarlyWhenLastIsEarly(v: Json, start: nat)
    requires Entries(v) != []
    ensures Early(v, |Entries(v)|, start + 1) <==> start + LastStart(v) <= LINE_LIMIT
  {
    var n := |Entries(v)|;
    forall i | 0 <= i < n ensures 1 + EntryStart(v, i) <= LastStart(v) { LateEntriesStartLater(v, i); }
    assert LastStart(v) == 1 + EntryStart(v, n - 1);
  }

  lemma FitsWhenLastFits(v: Json, start: nat, depth: nat)
    requires Entries(v) != []
    ensures Fits(v, |Entries(v)|, start + 1, depth) <==> start + LastStart(v) <= LINE_LIMIT && depth + Depth(v) <= DEPTH_LIMIT
  {
    EarlyWhenLastIsEarly(v, start);
    DepthOfEntries(v, |Entries(v)|, depth);
  }

  lemma ShallowNext(v: Json, n: nat, depth: nat)
    requires n < |Entries(v)|
    ensures Shallow(v, n + 1, depth) <==> Shallow(v, n, depth) && depth + 1 + Depth(Nth(v, n)) <= DEPTH_LIMIT
  {
  }

  lemma {:induction false} DepthOfEntries(v: Json, n: nat, depth: nat)
    requires n <= |Entries(v)|
    ensures Shallow(v, n, depth) <==> n == 0 || depth + DepthFirst(v, n) <= DEPTH_LIMIT
    decreases n
  {
    if n > 0 {
      DepthOfEntries(v, n - 1, depth);
      ShallowNext(v, n - 1, depth);
    }
  }

  /** Where the last value of entry i starts, counted from the container's first entry. */
  function EntryStart(v: Json, i: nat): nat
    requires i < |Entries(v)|
  {
    |EntryLines(v, i, [], 0)| + LastStart(Nth(v, i))
  }

  lemma NextEntry(v: Json, i: nat, path: seq<string>, depth: nat)
    requires i < |Entries(v)|
    ensures EntryLines(v, i + 1, path, depth) == EntryLines(v, i, path, depth) + OneEntry(v, i, path, depth)
  {
  }

  /** No entry starts later than the last one. */
  lemma {:induction false} LateEntriesStartLater(v: Json, i: nat)
    requires i < |Entries(v)|
    ensures 1 + EntryStart(v, i) <= LastStart(v)
    decreases |Entries(v)| - i
  {
    if i + 1 < |Entries(v)| {
      LateEntriesStartLater(v, i + 1);
      var e := Entries(v)[i];
      StartsWithin(Nth(v, i), [] + [e.segment], 1, e.key, true);
      NextEntry(v, i, [], 0);
    }
  }

  /** The value rendered last starts inside the lines of the whole. */
  lemma {:induction false} StartsWithin(v: Json, path: seq<string>, depth: nat, key: Option<string>, comma: bool)
    ensures LastStart(v) < |Lines(v, path, depth, key, comma)|
    decreases v
  {
    var n := |Entries(v)|;
    if n > 0 {
      var e := Entries(v)[n - 1];
      EntryCountIgnoresPlace(v, n - 1, path, depth, [], 0);
      StartsWithin(Nth(v, n - 1), path + [e.segment], depth + 1, e.key, false);
      assert EntryLines(v, n, path, depth) == EntryLines(v, n - 1, path, depth) + OneEntry(v, n - 1, path, depth);
    }
  }

  /** snapshotLines: nothing for a record that is no document, nor beyond 3000 lines or 24 levels; otherwise all the lines. */
  method SnapshotLines(snapshot: Snapshot) returns (lines: Option<seq<Line>>)
    ensures lines.Some? <==> snapshot.Document? && LastStart(snapshot.document) <= 3000 && Depth(snapshot.document) <= 24
    ensures lines.Some? ==> lines.value == Lines(snapshot.document, [], 0, None, false)
  {
    if !snapshot.Document? { return None; }
    var printer := new Printer();
    var ok := printer.Render(snapshot.document, [], 0, None, false);
    if ok { return Some(printer.lines); }
    return None;
  }
}
