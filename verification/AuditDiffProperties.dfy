/** What the difference of two snapshots means: equality, addresses, and coverage. */
module AuditDiffProperties {
  import Sequences
  import opened Numerals
  import opened JsonPointer
  import opened AuditDiff

  // ---------- structural equality, the order of keys ignored ----------

  ghost predicate Equal(l: Side, r: Side)
    decreases Weight(l, r)
  {
    if IsArray(l) && IsArray(r) then
      && Length(l) == Length(r)
      && forall i | 0 <= i < Length(l) :: (ItemsWeigh(l, r, i); Equal(Item(l, i), Item(r, i)))
    else if IsObject(l) && IsObject(r) then
      && (forall k :: k in Keys(Fields(l)) <==> k in Keys(Fields(r)))
      && forall k | k in Keys(Fields(l)) :: (FieldsWeigh(l, r, k); Equal(Field(l, k), Field(r, k)))
    else Identical(l, r)
  }

  lemma {:induction false} FirstIsEmpty(kids: seq<Child>, n: nat, path: seq<string>, bound: nat)
    requires n <= |kids| && Lighter(kids, bound)
    ensures DiffFirst(kids, n, path, bound) == [] <==>
              forall k :: 0 <= k < n ==> Diff(kids[k].left, kids[k].right, path + [kids[k].segment]) == []
  {
    if n > 0 { FirstIsEmpty(kids, n - 1, path, bound); }
  }

  lemma FieldPresent(s: Side, key: string)
    ensures Field(s, key).Present? <==> key in Keys(Fields(s))
  {
    var i := Find(Fields(s), key);
    if i < |Fields(s)| { assert Keys(Fields(s))[i] == key; }
  }

  /** No change is reported exactly when the two sides are structurally equal. */
  lemma {:induction false} NoChangesIffEqual(l: Side, r: Side, path: seq<string>)
    ensures Diff(l, r, path) == [] <==> Equal(l, r)
    decreases Weight(l, r)
  {
    if !Identical(l, r) && Descends(l, r) {
      ChildrenAreLighter(l, r);
      var kids := Children(l, r);
      FirstIsEmpty(kids, |kids|, path, Weight(l, r));
      forall k | 0 <= k < |kids|
        ensures Diff(kids[k].left, kids[k].right, path + [kids[k].segment]) == [] <==> Equal(kids[k].left, kids[k].right)
      {
        NoChangesIffEqual(kids[k].left, kids[k].right, path + [kids[k].segment]);
      }
      if IsArray(l) { EqualArrays(l, r); } else { EqualObjects(l, r); }
      assert AllEqual(kids) <==> DiffFirst(kids, |kids|, path, Weight(l, r)) == [];
    } else if IsObject(l) && IsObject(r) {
      NoKeys(l, r);
    }
  }

  lemma UnionOfSome(a: seq<string>, b: seq<string>)
    ensures a != [] || b != [] ==> Union(a, b) != []
  {
    if a != [] { assert a[0] in Union(a, b); }
    if b != [] { assert b[0] in Union(a, b); }
  }

  lemma NoKeys(l: Side, r: Side)
    requires IsObject(l) && IsObject(r) && !Descends(l, r)
    ensures BothEmptyObjects(l, r) && Equal(l, r)
  {
    UnionOfSome(Keys(Fields(l)), Keys(Fields(r)));
  }

  ghost predicate AllEqual(kids: seq<Child>) {
    forall k :: 0 <= k < |kids| ==> Equal(kids[k].left, kids[k].right)
  }

  lemma EqualArrays(l: Side, r: Side)
    requires IsArray(l) && IsArray(r)
    ensures Equal(l, r) <==> AllEqual(Children(l, r))
  {
    var kids := Children(l, r);
    if Length(l) != Length(r) {
      var k := if Length(l) < Length(r) then Length(l) else Length(r);
      assert kids[k].left.Absent? != kids[k].right.Absent?;
      assert !Equal(kids[k].left, kids[k].right);
    } else {
      assert forall i :: 0 <= i < Length(l) ==> kids[i].left == Item(l, i) && kids[i].right == Item(r, i);
    }
  }

  lemma EqualIsPresentTogether(l: Side, r: Side)
    requires Equal(l, r)
    ensures l.Present? <==> r.Present?
  {
  }

  /** Equality at every key. */
  ghost predicate EqualAt(l: Side, r: Side, keys: seq<string>) {
    forall k :: k in keys ==> Equal(Field(l, k), Field(r, k))
  }

  lemma KeysOfChildren(l: Side, r: Side)
    requires Descends(l, r) && !IsArray(l)
    ensures AllEqual(Children(l, r)) <==> EqualAt(l, r, AllKeys(l, r))
  {
    var kids, keys := Children(l, r), AllKeys(l, r);
    assert |kids| == |keys|;
    assert forall i :: 0 <= i < |keys| ==> kids[i].left == Field(l, keys[i]) && kids[i].right == Field(r, keys[i]);
  }

  lemma SameKeysWhenEqual(l: Side, r: Side)
    requires EqualAt(l, r, AllKeys(l, r))
    ensures forall k :: k in AllKeys(l, r) ==> k in Keys(Fields(l)) && k in Keys(Fields(r))
  {
    forall k | k in AllKeys(l, r) ensures k in Keys(Fields(l)) && k in Keys(Fields(r)) {
      FieldPresent(l, k);
      FieldPresent(r, k);
      EqualIsPresentTogether(Field(l, k), Field(r, k));
    }
  }

  lemma EqualObjects(l: Side, r: Side)
    requires Descends(l, r) && !IsArray(l)
    ensures Equal(l, r) <==> AllEqual(Children(l, r))
  {
    KeysOfChildren(l, r);
    if EqualAt(l, r, AllKeys(l, r)) {
      SameKeysWhenEqual(l, r);
      assert AllKeys(l, r)[0] in AllKeys(l, r);
    }
  }

  // ---------- addresses ----------

  /** The child of a value under one path segment. */
  function Step(s: Side, segment: string): Side {
    if IsObject(s) then Field(s, segment)
    else if IsArray(s) then Item(s, IndexOf(segment, Length(s)))
    else Absent
  }

  /** The index below n that the segment spells, or n. */
  function IndexOf(segment: string, n: nat): (i: nat)
    ensures i <= n
    ensures i < n ==> Decimal(i) == segment
    ensures i == n ==> forall j :: 0 <= j < n ==> Decimal(j) != segment
  {
    if n == 0 then 0
    else
      var i := IndexOf(segment, n - 1);
      if i < n - 1 then i else if Decimal(n - 1) == segment then n - 1 else n
  }

  function Resolve(s: Side, path: seq<string>): Side
    decreases |path|
  {
    if path == [] then s else Resolve(Step(s, path[0]), path[1..])
  }

  lemma StepToItem(s: Side, i: nat)
    requires IsArray(s)
    ensures Step(s, Decimal(i)) == Item(s, i)
  {
    var n := IndexOf(Decimal(i), Length(s));
    if n < Length(s) { DecimalIsInjective(n, i); }
  }

  /** The children of a pair are the children of its two sides. */
  lemma StepToChild(l: Side, r: Side, k: nat)
    requires Descends(l, r) && k < |Children(l, r)|
    ensures Step(l, Children(l, r)[k].segment) == Children(l, r)[k].left
    ensures Step(r, Children(l, r)[k].segment) == Children(l, r)[k].right
  {
    if IsArray(l) {
      StepToItem(l, k);
      StepToItem(r, k);
    }
  }

  /** A segment that is no child of the pair leads to nothing on either side. */
  lemma StepToNothing(l: Side, r: Side, segment: string)
    requires Descends(l, r)
    requires forall k :: 0 <= k < |Children(l, r)| ==> Children(l, r)[k].segment != segment
    ensures Step(l, segment) == Absent && Step(r, segment) == Absent
  {
    var kids := Children(l, r);
    if IsArray(l) {
      forall j | 0 <= j < Longer(l, r) ensures Decimal(j) != segment {
        assert kids[j].segment == Decimal(j);
      }
    } else {
      forall k | k in AllKeys(l, r) ensures k != segment {
        var i :| 0 <= i < |AllKeys(l, r)| && AllKeys(l, r)[i] == k;
        assert kids[i].segment == k;
      }
      FieldPresent(l, segment);
      FieldPresent(r, segment);
    }
  }

  lemma {:induction false} NothingUnderNothing(path: seq<string>)
    ensures Resolve(Absent, path) == Absent
  {
    if path != [] { NothingUnderNothing(path[1..]); }
  }

  /** Finds the child that a change comes from. */
  lemma {:induction false} FromChild(kids: seq<Child>, n: nat, path: seq<string>, bound: nat, c: Change) returns (k: nat)
    requires n <= |kids| && Lighter(kids, bound) && c in DiffFirst(kids, n, path, bound)
    ensures k < n && c in Diff(kids[k].left, kids[k].right, path + [kids[k].segment])
  {
    if c in Diff(kids[n - 1].left, kids[n - 1].right, path + [kids[n - 1].segment]) {
      k := n - 1;
    } else {
      k := FromChild(kids, n - 1, path, bound, c);
    }
  }

  lemma {:induction false} ToFirst(kids: seq<Child>, n: nat, path: seq<string>, bound: nat, k: nat, c: Change)
    requires k < n <= |kids| && Lighter(kids, bound) && c in Diff(kids[k].left, kids[k].right, path + [kids[k].segment])
    ensures c in DiffFirst(kids, n, path, bound)
  {
    if k < n - 1 { ToFirst(kids, n - 1, path, bound, k, c); }
  }

  /** Every reported path starts at the given one, and from there leads to the recorded values on both sides, which differ. */
  lemma {:induction false} ChangesResolve(l: Side, r: Side, path: seq<string>, c: Change)
    requires c in Diff(l, r, path)
    ensures path <= c.path
    ensures Resolve(l, c.path[|path|..]) == c.before && Resolve(r, c.path[|path|..]) == c.after
    ensures !Equal(c.before, c.after)
    decreases Weight(l, r)
  {
    if Descends(l, r) {
      ChildrenAreLighter(l, r);
      var k := FromContainer(l, r, path, c);
      var kid := Children(l, r)[k];
      ChangesResolve(kid.left, kid.right, path + [kid.segment], c);
      StepToChild(l, r, k);
      TailOfPath(path, kid.segment, c.path);
    } else {
      NoChangesIffEqual(l, r, path);
    }
  }

  lemma FromContainer(l: Side, r: Side, path: seq<string>, c: Change) returns (k: nat)
    requires Descends(l, r) && c in Diff(l, r, path)
    ensures k < |Children(l, r)|
    ensures var kid := Children(l, r)[k]; c in Diff(kid.left, kid.right, path + [kid.segment])
  {
    ChildrenAreLighter(l, r);
    k := FromChild(Children(l, r), |Children(l, r)|, path, Weight(l, r), c);
  }

  lemma TailOfPath(path: seq<string>, segment: string, full: seq<string>)
    requires path + [segment] <= full
    ensures path <= full && full[|path|..] != [] && full[|path|..][0] == segment
    ensures full[|path|..][1..] == full[|path + [segment]|..]
  {
    assert full[|path|] == (path + [segment])[|path|];
    assert full[..|path|] == (path + [segment])[..|path|] == path;
  }

  // ---------- no reported path lies at or under another ----------

  ghost predicate PrefixFree(changes: seq<Change>) {
    forall i, j :: 0 <= i < |changes| && 0 <= j < |changes| && i != j ==> !(changes[i].path <= changes[j].path)
  }

  lemma PrefixFreeTogether(a: seq<Change>, b: seq<Change>)
    requires PrefixFree(a) && PrefixFree(b)
    requires forall c, d :: c in a && d in b ==> !(c.path <= d.path) && !(d.path <= c.path)
    ensures PrefixFree(a + b)
  {
    var t := a + b;
    forall i, j | 0 <= i < |t| && 0 <= j < |t| && i != j ensures !(t[i].path <= t[j].path) {
      assert i < |a| ==> t[i] in a;
      assert i >= |a| ==> t[i] == b[i - |a|];
      assert j >= |a| ==> t[j] == b[j - |a|];
    }
  }

  ghost predicate DistinctSegments(kids: seq<Child>) {
    forall i, j :: 0 <= i < j < |kids| ==> kids[i].segment != kids[j].segment
  }

  lemma SegmentsAreDistinct(l: Side, r: Side)
    requires Descends(l, r) && Proper(l) && Proper(r)
    ensures DistinctSegments(Children(l, r))
  {
    if IsArray(l) {
      forall i, j | 0 <= i < j < Longer(l, r) ensures Decimal(i) != Decimal(j) {
        if Decimal(i) == Decimal(j) { DecimalIsInjective(i, j); }
      }
    }
  }

  lemma ChildrenAreProper(l: Side, r: Side, k: nat)
    requires Descends(l, r) && Proper(l) && Proper(r) && k < |Children(l, r)|
    ensures Proper(Children(l, r)[k].left) && Proper(Children(l, r)[k].right)
  {
  }

  /** Reported paths are distinct, and none is a segment prefix of another. */
  lemma {:induction false} ChangesArePrefixFree(l: Side, r: Side, path: seq<string>)
    requires Proper(l) && Proper(r)
    ensures PrefixFree(Diff(l, r, path))
    decreases Weight(l, r), 1, 0
  {
    if !Identical(l, r) && Descends(l, r) {
      ChildrenAreLighter(l, r);
      SegmentsAreDistinct(l, r);
      forall k | 0 <= k < |Children(l, r)| ensures Proper(Children(l, r)[k].left) && Proper(Children(l, r)[k].right) {
        ChildrenAreProper(l, r, k);
      }
      FirstIsPrefixFree(Children(l, r), |Children(l, r)|, path, Weight(l, r));
    }
  }

  lemma {:induction false} FirstIsPrefixFree(kids: seq<Child>, n: nat, path: seq<string>, bound: nat)
    requires n <= |kids| && Lighter(kids, bound) && DistinctSegments(kids)
    requires forall k :: 0 <= k < |kids| ==> Proper(kids[k].left) && Proper(kids[k].right)
    ensures PrefixFree(DiffFirst(kids, n, path, bound))
    decreases bound, 0, n
  {
    if n > 0 {
      FirstIsPrefixFree(kids, n - 1, path, bound);
      var last := kids[n - 1];
      ChangesArePrefixFree(last.left, last.right, path + [last.segment]);
      var a, b := DiffFirst(kids, n - 1, path, bound), Diff(last.left, last.right, path + [last.segment]);
      forall c, d | c in a && d in b ensures !(c.path <= d.path) && !(d.path <= c.path) {
        var k := FromChild(kids, n - 1, path, bound, c);
        ChangesResolve(kids[k].left, kids[k].right, path + [kids[k].segment], c);
        ChangesResolve(last.left, last.right, path + [last.segment], d);
        assert c.path[|path|] == kids[k].segment && d.path[|path|] == last.segment;
      }
      PrefixFreeTogether(a, b);
    }
  }

  // ---------- coverage ----------

  predicate IsScalar(s: Side) { s.Present? && s.value.Scalar? }

  /** A scalar on either side that is not the same on the other lies at or under a reported path. */
  lemma {:induction false} DifferencesAreCovered(l: Side, r: Side, path: seq<string>, leaf: seq<string>) returns (c: Change)
    requires IsScalar(Resolve(l, leaf)) || IsScalar(Resolve(r, leaf))
    requires Resolve(l, leaf) != Resolve(r, leaf)
    ensures c in Diff(l, r, path) && c.path <= path + leaf
    decreases |leaf|
  {
    if Descends(l, r) && leaf != [] {
      ChildrenAreLighter(l, r);
      var k := LeadingChild(l, r, leaf);
      var kid := Children(l, r)[k];
      StepToChild(l, r, k);
      c := DifferencesAreCovered(kid.left, kid.right, path + [kid.segment], leaf[1..]);
      CoveredBelow(l, r, path, leaf, k, c);
    } else {
      c := Change(path, l, r);
      CoveredHere(l, r, path, leaf);
    }
  }

  lemma CoveredBelow(l: Side, r: Side, path: seq<string>, leaf: seq<string>, k: nat, c: Change)
    requires Descends(l, r) && leaf != [] && k < |Children(l, r)| && Children(l, r)[k].segment == leaf[0]
    requires var kid := Children(l, r)[k]; c in Diff(kid.left, kid.right, path + [leaf[0]]) && c.path <= path + [leaf[0]] + leaf[1..]
    ensures c in Diff(l, r, path) && c.path <= path + leaf
  {
    assert leaf == [leaf[0]] + leaf[1..];
    Sequences.Regroup(path, [leaf[0]], leaf[1..]);
    InsideContainer(l, r, path, k, c);
  }

  lemma InsideContainer(l: Side, r: Side, path: seq<string>, k: nat, c: Change)
    requires Descends(l, r) && k < |Children(l, r)|
    requires var kid := Children(l, r)[k]; c in Diff(kid.left, kid.right, path + [kid.segment])
    ensures c in Diff(l, r, path)
  {
    ChildrenAreLighter(l, r);
    ToFirst(Children(l, r), |Children(l, r)|, path, Weight(l, r), k, c);
  }

  lemma LeadingChild(l: Side, r: Side, leaf: seq<string>) returns (k: nat)
    requires Descends(l, r) && leaf != [] && Resolve(l, leaf) != Resolve(r, leaf)
    ensures k < |Children(l, r)| && Children(l, r)[k].segment == leaf[0]
  {
    if forall k :: 0 <= k < |Children(l, r)| ==> Children(l, r)[k].segment != leaf[0] {
      StepToNothing(l, r, leaf[0]);
      NothingUnderNothing(leaf[1..]);
    }
    k :| k < |Children(l, r)| && Children(l, r)[k].segment == leaf[0];
  }

  lemma CoveredHere(l: Side, r: Side, path: seq<string>, leaf: seq<string>)
    requires IsScalar(Resolve(l, leaf)) || IsScalar(Resolve(r, leaf))
    requires Resolve(l, leaf) != Resolve(r, leaf)
    requires !Descends(l, r) || leaf == []
    ensures Diff(l, r, path) == [Change(path, l, r)]
  {
    if leaf != [] { NothingUnderNothing(leaf[1..]); }
  }

  lemma TwoPrefixes(p: seq<string>, q: seq<string>, whole: seq<string>)
    requires p <= whole && q <= whole
    ensures p <= q || q <= p
  {
  }

  /** Diff correctness for two well-formed documents (or a document and nothing): every differing scalar leaf lies at or
      under exactly one reported path, and distinct paths have distinct texts. */
  lemma EachDifferenceOnce(l: Side, r: Side, leaf: seq<string>) returns (i: nat)
    requires Proper(l) && Proper(r)
    requires IsScalar(Resolve(l, leaf)) || IsScalar(Resolve(r, leaf))
    requires Resolve(l, leaf) != Resolve(r, leaf)
    ensures var d := Diff(l, r, []);
            && i < |d| && d[i].path <= leaf
            && (forall j :: 0 <= j < |d| && d[j].path <= leaf ==> j == i)
            && (forall j, k :: 0 <= j < k < |d| ==> Pointer(d[j].path) != Pointer(d[k].path))
  {
    var d := Diff(l, r, []);
    var c := DifferencesAreCovered(l, r, [], leaf);
    i :| 0 <= i < |d| && d[i] == c;
    assert [] + leaf == leaf;
    ChangesArePrefixFree(l, r, []);
    forall j | 0 <= j < |d| && d[j].path <= leaf ensures j == i {
      TwoPrefixes(d[j].path, d[i].path, leaf);
    }
    forall j, k | 0 <= j < k < |d| ensures Pointer(d[j].path) != Pointer(d[k].path) {
      if Pointer(d[j].path) == Pointer(d[k].path) { PointerIsInjective(d[j].path, d[k].path); }
    }
  }
}
