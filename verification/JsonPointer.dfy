/** JSON values and JSON Pointer (section 3 of RFC 6901), shared by the audit diff and the printer. */
module JsonPointer {

  /** A parsed JSON value. A scalar is identified by its canonical text; the fields of an object stand in the order of
      Object.keys. */
  datatype Json = Scalar(text: string) | Arr(items: seq<Json>) | Obj(fields: seq<Member>)

  datatype Member = Member(key: string, value: Json)

  predicate DistinctKeys(fields: seq<Member>) {
    forall i, j :: 0 <= i < j < |fields| ==> fields[i].key != fields[j].key
  }

  /** Objects have distinct keys, all the way down: what JSON.parse produces. */
  predicate WellFormed(v: Json) {
    match v
    case Scalar(_) => true
    case Arr(items) => forall i :: 0 <= i < |items| ==> WellFormed(items[i])
    case Obj(fields) => DistinctKeys(fields) && forall i :: 0 <= i < |fields| ==> WellFormed(fields[i].value)
  }

  // ---------- escaping ----------

  function ReplaceAll(s: string, c: char, instead: string): string {
    if s == [] then [] else (if s[0] == c then instead else [s[0]]) + ReplaceAll(s[1..], c, instead)
  }

  /** pointer(key): '~' becomes "~0", then '/' becomes "~1". */
  function Escape(key: string): string { ReplaceAll(ReplaceAll(key, '~', "~0"), '/', "~1") }

  /** The inverse that a JSON Pointer reader applies. */
  function Unescape(s: string): string {
    if s == [] then []
    else if s[0] == '~' && |s| > 1 && s[1] == '0' then "~" + Unescape(s[2..])
    else if s[0] == '~' && |s| > 1 && s[1] == '1' then "/" + Unescape(s[2..])
    else [s[0]] + Unescape(s[1..])
  }

  lemma {:induction false} ReplaceDistributes(s: string, t: string, c: char, instead: string)
    ensures ReplaceAll(s + t, c, instead) == ReplaceAll(s, c, instead) + ReplaceAll(t, c, instead)
  {
    if s == [] {
      assert s + t == t;
    } else {
      ReplaceDistributes(s[1..], t, c, instead);
      assert (s + t)[1..] == s[1..] + t;
    }
  }

  function EscapeChar(c: char): string { if c == '~' then "~0" else if c == '/' then "~1" else [c] }

  lemma EscapeOne(c: char, rest: string)
    ensures Escape([c] + rest) == EscapeChar(c) + Escape(rest)
  {
    var first := if c == '~' then "~0" else [c];
    assert ([c] + rest)[1..] == rest;
    ReplaceDistributes(first, ReplaceAll(rest, '~', "~0"), '/', "~1");
    EscapeFirst(c);
  }

  lemma EscapeFirst(c: char)
    ensures ReplaceAll(if c == '~' then "~0" else [c], '/', "~1") == EscapeChar(c)
  {
    if c == '~' {
      assert "~0"[1..] == "0" && "0"[1..] == "";
    } else {
      assert [c][1..] == "";
    }
  }

  /** Unescaping undoes escaping, and an escaped key contains no separator. */
  lemma {:induction false} UnescapeEscape(key: string)
    ensures Unescape(Escape(key)) == key
    ensures '/' !in Escape(key)
  {
    if key != [] {
      var c, rest := key[0], key[1..];
      assert key == [c] + rest;
      EscapeOne(c, rest);
      UnescapeEscape(rest);
      var e := EscapeChar(c);
      if c == '~' || c == '/' {
        assert (e + Escape(rest))[2..] == Escape(rest);
      } else {
        assert (e + Escape(rest))[1..] == Escape(rest);
      }
    }
  }

  // ---------- pointers ----------

  /** The text of a path: each segment escaped and preceded by '/'. */
  function Pointer(path: seq<string>): string {
    if path == [] then "" else Pointer(path[..|path| - 1]) + "/" + Escape(path[|path| - 1])
  }

  /** Cuts the text of a pointer back into its segments. */
  function Segments(text: string): seq<string> {
    var k := LastSlash(text);
    if k < 0 then [] else Segments(text[..k]) + [Unescape(text[k + 1..])]
  }

  function LastSlash(text: string): (k: int)
    ensures -1 <= k < |text|
  {
    if text == [] then -1 else if text[|text| - 1] == '/' then |text| - 1 else LastSlash(text[..|text| - 1])
  }

  lemma {:induction false} LastSlashOf(a: string, b: string)
    requires '/' !in b
    ensures LastSlash(a + "/" + b) == |a|
  {
    var t := a + "/" + b;
    if b == [] {
      assert t[|t| - 1] == '/';
    } else {
      LastSlashOf(a, b[..|b| - 1]);
      assert t[..|t| - 1] == a + "/" + b[..|b| - 1];
    }
  }

  /** Reading a pointer back yields the path: distinct paths have distinct pointers. */
  lemma {:induction false} PointerRoundTrip(path: seq<string>)
    ensures Segments(Pointer(path)) == path
  {
    if path != [] {
      var front, last := path[..|path| - 1], path[|path| - 1];
      PointerRoundTrip(front);
      UnescapeEscape(last);
      LastSlashOf(Pointer(front), Escape(last));
      var t := Pointer(path);
      assert t[..|Pointer(front)|] == Pointer(front) && t[|Pointer(front)| + 1..] == Escape(last);
    }
  }

  lemma PointerIsInjective(p: seq<string>, q: seq<string>)
    requires Pointer(p) == Pointer(q)
    ensures p == q
  {
    PointerRoundTrip(p);
    PointerRoundTrip(q);
  }
}
