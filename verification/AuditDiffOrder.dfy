/** The order of the reported changes, and what the visit and depth limits count. */
module AuditDiffOrder {
  import opened Numerals
  import opened JsonPointer
  import opened AuditDiff
  import opened AuditDiffProperties

  // ---------- document order ----------

  ghost predicate Earlier(keys: seq<string>, a: string, b: string) {
    exists i, j :: 0 <= i < j < |keys| && keys[i] == a && keys[j] == b
  }

  /** Of two entries of a container pair: by index in arrays; in objects the keys of the left side come first, in their order,
      and then those that only the right side has, in theirs. */
  ghost predicate Precedes(l: Side, r: Side, a: string, b: string) {
    if IsArray(l) then Value(a) < Value(b)
    else
      var left, right := Keys(Fields(l)), Keys(Fields(r));
      Earlier(left, a, b) || (a in left && b !in left) || (a !in left && b !in left && Earlier(right, a, b))
  }

  ghost predicate InOrder(l: Side, r: Side, p: seq<string>, q: seq<string>)
    decreases |p|
  {
    p != [] && q != [] &&
    if p[0] == q[0] then InOrder(Step(l, p[0]), Step(r, p[0]), p[1..], q[1..]) else Precedes(l, r, p[0], q[0])
  }

  lemma {:induction false} UnionInOrder(a: seq<string>, b: seq<string>, i: nat, j: nat)
    requires i < j < |Union(a, b)|
    ensures var u := Union(a, b);
            (j < |a| && u[i] == a[i] && u[j] == a[j]) || (i < |a| <= j && u[i] == a[i] && u[j] !in a) ||
            (|a| <= i && u[i] !in a && u[j] !in a && Earlier(b, u[i], u[j]))
    decreases |b|
  {
    if b != [] {
      var front, last := b[..|b| - 1], b[|b| - 1];
      var u := Union(a, front);
      LeftComesFirst(a, b);
      LeftComesFirst(a, front);
      if j < |u| {
        UnionInOrder(a, front, i, j);
        if Earlier(front, u[i], u[j]) {
          var m, n :| 0 <= m < n < |front| && front[m] == u[i] && front[n] == u[j];
          assert b[m] == u[i] && b[n] == u[j];
        }
      } else if i >= |a| {
        assert u[i] in front;
        var m :| 0 <= m < |front| && front[m] == u[i];
        assert b[m] == u[i] && b[|b| - 1] == last;
      }
    }
  }

  lemma {:induction false} LeftComesFirst(a: seq<string>, b: seq<string>)
    ensures |a| <= |Union(a, b)| && Union(a, b)[..|a|] == a
    ensures forall i :: |a| <= i < |Union(a, b)| ==> Union(a, b)[i] !in a && Union(a, b)[i] in b
    decreases |b|
  {
    if b != [] { LeftComesFirst(a, b[..|b| - 1]); }
  }

  lemma ChildrenInOrder(l: Side, r: Side, i: nat, j: nat)
    requires Descends(l, r) && i < j < |Children(l, r)|
    ensures Precedes(l, r, Children(l, r)[i].segment, Children(l, r)[j].segment)
  {
    if IsArray(l) {
      ValueOfDecimal(i);
      ValueOfDecimal(j);
    } else {
      var a, b := Keys(Fields(l)), Keys(Fields(r));
      UnionInOrder(a, b, i, j);
      var u := Union(a, b);
      if j < |a| { assert Earlier(a, u[i], u[j]); }
    }
  }

  ghost predicate Follows(l: Side, r: Side, path: seq<string>, c: Change, d: Change) {
    path <= c.path && path <= d.path && InOrder(l, r, c.path[|path|..], d.path[|path|..])
  }

  /** The changes come in document order. */
  lemma {:induction false} ChangesInDocumentOrder(l: Side, r: Side, path: seq<string>, i: nat, j: nat)
    requires Proper(l) && Proper(r) && i < j < |Diff(l, r, path)|
    ensures Follows(l, r, path, Diff(l, r, path)[i], Diff(l, r, path)[j])
    decreases Weight(l, r), 1
  {
    ChildrenAreLighter(l, r);
    var k, x, m, y := Locate(Children(l, r), |Children(l, r)|, path, Weight(l, r), i, j);
    if k < m {
      AcrossChildren(l, r, path, k, m, Diff(l, r, path)[i], Diff(l, r, path)[j]);
    } else {
      InChild(l, r, k, path, x, y);
    }
  }

  /** The i-th change under the children is the x-th of child k. */
  ghost predicate At(kids: seq<Child>, path: seq<string>, k: nat, x: nat, c: Change)
    requires k < |kids|
  {
    var d := Diff(kids[k].left, kids[k].right, path + [kids[k].segment]); x < |d| && d[x] == c
  }

  lemma {:induction false} LocateOne(kids: seq<Child>, n: nat, path: seq<string>, bound: nat, i: nat) returns (k: nat, x: nat)
    requires n <= |kids| && Lighter(kids, bound) && i < |DiffFirst(kids, n, path, bound)|
    ensures k < n && At(kids, path, k, x, DiffFirst(kids, n, path, bound)[i]) && i == |DiffFirst(kids, k, path, bound)| + x
    decreases n
  {
    var m := |DiffFirst(kids, n - 1, path, bound)|;
    if i < m {
      k, x := LocateOne(kids, n - 1, path, bound, i);
    } else {
      k, x := n - 1, i - m;
    }
  }

  lemma {:induction false} CountGrows(kids: seq<Child>, k: nat, m: nat, path: seq<string>, bound: nat, x: nat, c: Change)
    requires k < m <= |kids| && Lighter(kids, bound) && At(kids, path, k, x, c)
    ensures |DiffFirst(kids, k, path, bound)| + x < |DiffFirst(kids, m, path, bound)|
    decreases m
  {
    if k < m - 1 { CountGrows(kids, k, m - 1, path, bound, x, c); }
  }

  /** Two changes lie in the same child, in its order, or in two children, in theirs. */
  lemma Locate(kids: seq<Child>, n: nat, path: seq<string>, bound: nat, i: nat, j: nat)
    returns (k: nat, x: nat, m: nat, y: nat)
    requires n <= |kids| && Lighter(kids, bound) && i < j < |DiffFirst(kids, n, path, bound)|
    ensures k <= m < n && (k == m ==> x < y)
    ensures At(kids, path, k, x, DiffFirst(kids, n, path, bound)[i]) && At(kids, path, m, y, DiffFirst(kids, n, path, bound)[j])
  {
    k, x := LocateOne(kids, n, path, bound, i);
    m, y := LocateOne(kids, n, path, bound, j);
    if m < k { CountGrows(kids, m, k, path, bound, y, DiffFirst(kids, n, path, bound)[j]); }
  }

  lemma {:induction false} InChild(l: Side, r: Side, k: nat, path: seq<string>, i: nat, j: nat)
    requires Proper(l) && Proper(r) && Descends(l, r) && k < |Children(l, r)| && Lighter(Children(l, r), Weight(l, r))
    requires var kid := Children(l, r)[k]; i < j < |Diff(kid.left, kid.right, path + [kid.segment])|
    ensures var kid := Children(l, r)[k];
            var back := Diff(kid.left, kid.right, path + [kid.segment]);
            Follows(l, r, path, back[i], back[j])
    decreases Weight(l, r), 0
  {
    var kid := Children(l, r)[k];
    var back := Diff(kid.left, kid.right, path + [kid.segment]);
    ChildrenAreProper(l, r, k);
    ChangesInDocumentOrder(kid.left, kid.right, path + [kid.segment], i, j);
    WithinChild(l, r, path, k, back[i].path, back[j].path);
  }

  lemma AcrossChildren(l: Side, r: Side, path: seq<string>, k: nat, m: nat, c: Change, d: Change)
    requires Proper(l) && Proper(r) && Descends(l, r) && k < m < |Children(l, r)|
    requires var kid := Children(l, r)[k]; c in Diff(kid.left, kid.right, path + [kid.segment])
    requires var kid := Children(l, r)[m]; d in Diff(kid.left, kid.right, path + [kid.segment])
    ensures Follows(l, r, path, c, d)
  {
    var one, two := Children(l, r)[k], Children(l, r)[m];
    ChangesResolve(one.left, one.right, path + [one.segment], c);
    ChangesResolve(two.left, two.right, path + [two.segment], d);
    TailOfPath(path, one.segment, c.path);
    TailOfPath(path, two.segment, d.path);
    SegmentsAreDistinct(l, r);
    ChildrenInOrder(l, r, k, m);
  }

  lemma WithinChild(l: Side, r: Side, path: seq<string>, k: nat, p: seq<string>, q: seq<string>)
    requires Proper(l) && Proper(r) && Descends(l, r) && k < |Children(l, r)|
    requires var kid := Children(l, r)[k];
             path + [kid.segment] <= p && path + [kid.segment] <= q &&
             InOrder(kid.left, kid.right, p[|path + [kid.segment]|..], q[|path + [kid.segment]|..])
    ensures path <= p && path <= q && InOrder(l, r, p[|path|..], q[|path|..])
  {
    var kid := Children(l, r)[k];
    TailOfPath(path, kid.segment, p);
    TailOfPath(path, kid.segment, q);
    StepToChild(l, r, k);
  }

  // ---------- what is reported as a whole ----------

  /** Changes are reported as deep as possible: never two lists, never an object with entries against an object or against
      nothing. */
  lemma {:induction false} ChangesAreAtomic(l: Side, r: Side, path: seq<string>, c: Change)
    requires c in Diff(l, r, path)
    ensures !(IsArray(c.before) && IsArray(c.after))
    ensures IsObject(c.before) && (IsObject(c.after) || c.after.Absent?) ==> c.before.value.fields == []
    ensures IsObject(c.after) && (IsObject(c.before) || c.before.Absent?) ==> c.after.value.fields == []
    decreases Weight(l, r)
  {
    if Descends(l, r) {
      ChildrenAreLighter(l, r);
      var k := FromContainer(l, r, path, c);
      var kid := Children(l, r)[k];
      ChangesAreAtomic(kid.left, kid.right, path + [kid.segment], c);
    } else {
      NoKeysNoFields(l, r);
    }
  }

  lemma NoKeysNoFields(l: Side, r: Side)
    ensures AllKeys(l, r) == [] ==> Fields(l) == [] && Fields(r) == []
  {
    if Fields(l) != [] { assert Keys(Fields(l))[0] in AllKeys(l, r); }
    if Fields(r) != [] { assert Keys(Fields(r))[0] in AllKeys(l, r); }
  }

  // ---------- what the limits count ----------

  /** Every reported path was reached by a visit: it is no longer than the walk is deep, and there are no more changes than
      visits. */
  lemma {:induction false} ChangesWithinLimits(l: Side, r: Side, path: seq<string>, c: Change)
    requires c in Diff(l, r, path)
    ensures |c.path| <= |path| + Height(l, r)
    decreases Weight(l, r)
  {
    if Descends(l, r) {
      ChildrenAreLighter(l, r);
      var k := FromContainer(l, r, path, c);
      var kid := Children(l, r)[k];
      ChangesWithinLimits(kid.left, kid.right, path + [kid.segment], c);
      HeightOfChild(Children(l, r), |Children(l, r)|, Weight(l, r), k);
    }
  }

  lemma HeightOfChild(kids: seq<Child>, n: nat, bound: nat, k: nat)
    requires k < n <= |kids| && Lighter(kids, bound)
    ensures 1 + Height(kids[k].left, kids[k].right) <= HeightFirst(kids, n, bound)
  {
    Grows(kids, k + 1, n, bound);
  }

  function Scalars(texts: seq<string>): Json {
    Arr(seq(|texts|, i requires 0 <= i < |texts| => Scalar(texts[i])))
  }

  /** Comparing two lists of scalars visits the pair of lists and each pair of entries, equal or not, and goes one level down. */
  lemma FlatVisits(a: seq<string>, b: seq<string>)
    ensures var l, r := Present(Scalars(a)), Present(Scalars(b));
            var n := if |a| < |b| then |b| else |a|;
            Visits(l, r) == 1 + n && Height(l, r) == if n == 0 then 0 else 1
  {
    var l, r := Present(Scalars(a)), Present(Scalars(b));
    ChildrenAreLighter(l, r);
    FlatVisitsFirst(l, r, |Children(l, r)|);
  }

  lemma {:induction false} FlatVisitsFirst(l: Side, r: Side, n: nat)
    requires IsArray(l) && IsArray(r) && n <= |Children(l, r)| && Lighter(Children(l, r), Weight(l, r))
    requires forall i :: 0 <= i < |l.value.items| ==> l.value.items[i].Scalar?
    requires forall i :: 0 <= i < |r.value.items| ==> r.value.items[i].Scalar?
    ensures VisitsFirst(Children(l, r), n, Weight(l, r)) == n
    ensures HeightFirst(Children(l, r), n, Weight(l, r)) == if n == 0 then 0 else 1
    decreases n
  {
    if n > 0 { FlatVisitsFirst(l, r, n - 1); }
  }
}
