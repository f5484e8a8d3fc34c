/** compareSnapshots (auditDiff.ts): the recursive difference of two JSON snapshots, with its limits. */
module AuditDiff {
  import Sequences
  import opened Numerals
  import opened JsonPointer

  /** One side of a comparison; `Absent` is the source's symbol for "not recorded". */
  datatype Side = Absent | Present(value: Json)

  /** A reported change; its text in the source is Pointer(path). */
  datatype Change = Change(path: seq<string>, before: Side, after: Side)

  /** A pair to be compared one level down, under the given path segment. */
  datatype Child = Child(segment: string, left: Side, right: Side)

  const VISIT_LIMIT := 2000
  const DEPTH_LIMIT := 24

  predicate Proper(s: Side) { s.Present? ==> WellFormed(s.value) }
  predicate IsObject(s: Side) { s.Present? && s.value.Obj? }
  predicate IsArray(s: Side) { s.Present? && s.value.Arr? }

  /** left === right: equal scalars, or both absent. Containers from two parses are never identical. */
  predicate Identical(l: Side, r: Side) {
    (l.Absent? && r.Absent?) || (l.Present? && r.Present? && l.value.Scalar? && l == r)
  }

  // ---------- sizes, for termination ----------

  function Size(v: Json): nat {
    match v
    case Scalar(_) => 1
    case Arr(items) => 1 + ItemsSize(items)
    case Obj(fields) => 1 + FieldsSize(fields)
  }

  function ItemsSize(items: seq<Json>): nat {
    if items == [] then 0 else Size(items[0]) + ItemsSize(items[1..])
  }

  function FieldsSize(fields: seq<Member>): nat {
    if fields == [] then 0 else Size(fields[0].value) + FieldsSize(fields[1..])
  }

  function Weight(l: Side, r: Side): nat {
    (if l.Absent? then 0 else Size(l.value)) + (if r.Absent? then 0 else Size(r.value))
  }

  lemma {:induction false} ItemIsSmaller(items: seq<Json>, i: nat)
    requires i < |items|
    ensures Size(items[i]) <= ItemsSize(items)
  {
    if i > 0 { ItemIsSmaller(items[1..], i - 1); }
  }

  lemma {:induction false} FieldIsSmaller(fields: seq<Member>, i: nat)
    requires i < |fields|
    ensures Size(fields[i].value) <= FieldsSize(fields)
  {
    if i > 0 { FieldIsSmaller(fields[1..], i - 1); }
  }

  // ---------- one level down ----------

  function Fields(s: Side): seq<Member> { if IsObject(s) then s.value.fields else [] }

  function Keys(fields: seq<Member>): seq<string> {
    seq(|fields|, i requires 0 <= i < |fields| => fields[i].key)
  }

  /** [...new Set([...a, ...b])] for duplicate-free a and b: the keys of a, then the new ones of b. */
  function Union(a: seq<string>, b: seq<string>): (u: seq<string>)
    ensures forall k :: k in u <==> k in a || k in b
    ensures (forall i, j :: 0 <= i < j < |a| ==> a[i] != a[j]) ==> forall i, j :: 0 <= i < j < |u| ==> u[i] != u[j]
  {
    if b == [] then a
    else
      var u := Union(a, b[..|b| - 1]);
      if b[|b| - 1] in u then u else u + [b[|b| - 1]]
  }

  function AllKeys(l: Side, r: Side): seq<string> { Union(Keys(Fields(l)), Keys(Fields(r))) }

  /** The position of a key, or the length when it is missing. */
  function Find(fields: seq<Member>, key: string): (i: nat)
    ensures i <= |fields|
    ensures i < |fields| ==> fields[i].key == key
    ensures i == |fields| ==> key !in Keys(fields)
  {
    if fields == [] then 0
    else if fields[0].key == key then 0
    else
      assert Keys(fields) == [fields[0].key] + Keys(fields[1..]);
      1 + Find(fields[1..], key)
  }

  function Field(s: Side, key: string): Side {
    var fields := Fields(s);
    var i := Find(fields, key);
    if i < |fields| then Present(fields[i].value) else Absent
  }

  function Item(s: Side, i: nat): Side {
    if IsArray(s) && i < |s.value.items| then Present(s.value.items[i]) else Absent
  }

  function Length(s: Side): nat { if IsArray(s) then |s.value.items| else 0 }

  function Longer(l: Side, r: Side): nat { if Length(l) < Length(r) then Length(r) else Length(l) }

  /** walk goes one level down: objects against objects or against nothing, arrays against arrays. */
  predicate Descends(l: Side, r: Side) {
    || (((IsObject(l) && (IsObject(r) || r.Absent?)) || (IsObject(r) && l.Absent?)) && AllKeys(l, r) != [])
    || (IsArray(l) && IsArray(r))
  }

  function Children(l: Side, r: Side): seq<Child>
    requires Descends(l, r)
  {
    if IsArray(l) then
      seq(Longer(l, r), i requires 0 <= i => Child(Decimal(i), Item(l, i), Item(r, i)))
    else
      var keys := AllKeys(l, r);
      seq(|keys|, i requires 0 <= i < |keys| => Child(keys[i], Field(l, keys[i]), Field(r, keys[i])))
  }

  ghost predicate Lighter(kids: seq<Child>, bound: nat) {
    forall k :: 0 <= k < |kids| ==> Weight(kids[k].left, kids[k].right) < bound
  }

  lemma ChildrenAreLighter(l: Side, r: Side)
    requires Descends(l, r)
    ensures Lighter(Children(l, r), Weight(l, r))
  {
    forall k | 0 <= k < |Children(l, r)|
      ensures Weight(Children(l, r)[k].left, Children(l, r)[k].right) < Weight(l, r)
    {
      if IsArray(l) { ItemsWeigh(l, r, k); } else { FieldsWeigh(l, r, AllKeys(l, r)[k]); }
    }
  }

  lemma ItemsWeigh(l: Side, r: Side, i: nat)
    requires IsArray(l) && IsArray(r)
    ensures Weight(Item(l, i), Item(r, i)) < Weight(l, r)
  {
    if i < Length(l) { ItemIsSmaller(l.value.items, i); }
    if i < Length(r) { ItemIsSmaller(r.value.items, i); }
  }

  lemma FieldsWeigh(l: Side, r: Side, key: string)
    requires (IsObject(l) && (IsObject(r) || r.Absent?)) || (IsObject(r) && l.Absent?)
    ensures Weight(Field(l, key), Field(r, key)) < Weight(l, r)
  {
    if Find(Fields(l), key) < |Fields(l)| { FieldIsSmaller(Fields(l), Find(Fields(l), key)); }
    if Find(Fields(r), key) < |Fields(r)| { FieldIsSmaller(Fields(r), Find(Fields(r), key)); }
  }

  // ---------- the difference ----------

  predicate BothEmptyObjects(l: Side, r: Side) { IsObject(l) && IsObject(r) && Fields(l) == [] && Fields(r) == [] }

  /** The changes that an unlimited walk reports, in order. */
  function Diff(l: Side, r: Side, path: seq<string>): seq<Change>
    decreases Weight(l, r), 1, 0
  {
    if Identical(l, r) then []
    else if Descends(l, r) then
      ChildrenAreLighter(l, r);
      DiffFirst(Children(l, r), |Children(l, r)|, path, Weight(l, r))
    else if BothEmptyObjects(l, r) then []
    else [Change(path, l, r)]
  }

  /** The changes under the first n children. */
  function DiffFirst(kids: seq<Child>, n: nat, path: seq<string>, bound: nat): seq<Change>
    requires n <= |kids| && Lighter(kids, bound)
    decreases bound, 0, n
  {
    if n == 0 then []
    else DiffFirst(kids, n - 1, path, bound) + Diff(kids[n - 1].left, kids[n - 1].right, path + [kids[n - 1].segment])
  }

  /** How many pairs the walk visits, and how deep it goes. */
  function Visits(l: Side, r: Side): nat
    decreases Weight(l, r), 1, 0
  {
    if !Identical(l, r) && Descends(l, r) then
      ChildrenAreLighter(l, r);
      1 + VisitsFirst(Children(l, r), |Children(l, r)|, Weight(l, r))
    else 1
  }

  function VisitsFirst(kids: seq<Child>, n: nat, bound: nat): nat
    requires n <= |kids| && Lighter(kids, bound)
    decreases bound, 0, n
  {
    if n == 0 then 0 else VisitsFirst(kids, n - 1, bound) + Visits(kids[n - 1].left, kids[n - 1].right)
  }

  function Height(l: Side, r: Side): nat
    decreases Weight(l, r), 1, 0
  {
    if !Identical(l, r) && Descends(l, r) then
      ChildrenAreLighter(l, r);
      HeightFirst(Children(l, r), |Children(l, r)|, Weight(l, r))
    else 0
  }

  function HeightFirst(kids: seq<Child>, n: nat, bound: nat): nat
    requires n <= |kids| && Lighter(kids, bound)
    decreases bound, 0, n
  {
    if n == 0 then 0
    else
      var h, g := HeightFirst(kids, n - 1, bound), 1 + Height(kids[n - 1].left, kids[n - 1].right);
      if h < g then g else h
  }

  // ---------- the walk ----------

  class Walker {
    var changes: seq<Change>
    var visited: nat

    constructor ()
      ensures changes == [] && visited == 0
    {
      changes, visited := [], 0;
    }

    /** walk: it ends normally exactly when the whole traversal stays within both limits, and then it has appended the
        difference and counted every pair. */
    method Walk(l: Side, r: Side, path: seq<string>, depth: nat) returns (ok: bool)
      requires visited <= VISIT_LIMIT
      modifies this
      ensures ok <==> old(visited) + Visits(l, r) <= VISIT_LIMIT && depth + Height(l, r) <= DEPTH_LIMIT
      ensures ok ==> changes == old(changes) + Diff(l, r, path) && visited == old(visited) + Visits(l, r)
      decreases Weight(l, r), 1
    {
      visited := visited + 1;
      if visited > VISIT_LIMIT || depth > DEPTH_LIMIT { return false; }
      if Identical(l, r) { return true; }
      if Descends(l, r) {
        ChildrenAreLighter(l, r);
        ok := WalkAll(Children(l, r), path, depth, Weight(l, r));
        return;
      }
      if BothEmptyObjects(l, r) { return true; }
      changes := changes + [Change(path, l, r)];
      return true;
    }

    method WalkAll(kids: seq<Child>, path: seq<string>, depth: nat, ghost bound: nat) returns (ok: bool)
      requires visited <= VISIT_LIMIT && depth <= DEPTH_LIMIT && Lighter(kids, bound)
      modifies this
      ensures ok <==> old(visited) + VisitsFirst(kids, |kids|, bound) <= VISIT_LIMIT &&
                      depth + HeightFirst(kids, |kids|, bound) <= DEPTH_LIMIT
      ensures ok ==> changes == old(changes) + DiffFirst(kids, |kids|, path, bound) &&
                     visited == old(visited) + VisitsFirst(kids, |kids|, bound)
      decreases bound, 0
    {
      for i := 0 to |kids|
        invariant visited <= VISIT_LIMIT
        invariant visited == old(visited) + VisitsFirst(kids, i, bound)
        invariant depth + HeightFirst(kids, i, bound) <= DEPTH_LIMIT
        invariant changes == old(changes) + DiffFirst(kids, i, path, bound)
      {
        ok := Walk(kids[i].left, kids[i].right, path + [kids[i].segment], depth + 1);
        Sequences.Regroup(old(changes), DiffFirst(kids, i, path, bound), Diff(kids[i].left, kids[i].right, path + [kids[i].segment]));
        if !ok {
          Grows(kids, i + 1, |kids|, bound);
          return;
        }
      }
      ok := true;
    }
  }

  /** Counts and heights only grow with more children. */
  lemma {:induction false} Grows(kids: seq<Child>, m: nat, n: nat, bound: nat)
    requires m <= n <= |kids| && Lighter(kids, bound)
    ensures VisitsFirst(kids, m, bound) <= VisitsFirst(kids, n, bound)
    ensures HeightFirst(kids, m, bound) <= HeightFirst(kids, n, bound)
    decreases n
  {
    if m < n { Grows(kids, m, n - 1, bound); }
  }

  // ---------- the comparison ----------

  /** parseSnapshot's three outcomes. */
  datatype Snapshot = Missing | Document(raw: string, document: Json) | Text(raw: string)
  {
    function Raw(): string { if Missing? then "" else raw }
    function Recorded(): Side {
      match this case Missing => Absent case Document(_, v) => Present(v) case Text(s) => Present(Scalar(s))
    }
    predicate SameKind(other: Snapshot) {
      (Missing? <==> other.Missing?) && (Document? <==> other.Document?)
    }
  }

  /** The difference of the two sides; or, beyond 2000 visits or 24 levels, nothing and the flag. */
  ghost predicate Outcome(l: Side, r: Side, changes: seq<Change>, limited: bool) {
    (limited <==> Visits(l, r) > 2000 || Height(l, r) > 24) && changes == if limited then [] else Diff(l, r, [])
  }

  /** compareSnapshots: texts are compared as a whole; documents yield their difference, or nothing at all together with
      the flag when a limit is exceeded. */
  method Compare(before: Snapshot, after: Snapshot) returns (changes: seq<Change>, limited: bool)
    ensures before.Document? && after.Document? ==> Outcome(Present(before.document), Present(after.document), changes, limited)
    ensures before.Missing? && after.Document? ==> Outcome(Absent, Present(after.document), changes, limited)
    ensures before.Document? && after.Missing? ==> Outcome(Present(before.document), Absent, changes, limited)
    ensures before.Missing? && after.Missing? ==> changes == [] && !limited
    ensures before.Text? || after.Text? ==> !limited
    ensures before.Text? && after.Text? ==>
              changes == if before.raw == after.raw then []
                         else [Change([], Present(Scalar(before.raw)), Present(Scalar(after.raw)))]
    ensures before.Text? && after.Document? ==> changes == [Change([], Present(Scalar(before.raw)), Present(after.document))]
    ensures before.Document? && after.Text? ==> changes == [Change([], Present(before.document), Present(Scalar(after.raw)))]
    ensures before.Text? && after.Missing? ==> changes == [Change([], Present(Scalar(before.raw)), Absent)]
    ensures before.Missing? && after.Text? ==> changes == [Change([], Absent, Present(Scalar(after.raw)))]
  {
    if before.Text? || after.Text? {
      changes := [];
      if before.Raw() != after.Raw() || !before.SameKind(after) {
        changes := [Change([], before.Recorded(), after.Recorded())];
      }
      return changes, false;
    }
    var walker := new Walker();
    var ok := walker.Walk(before.Recorded(), after.Recorded(), [], 0);
    if ok { return walker.changes, false; }
    return [], true;
  }
}
