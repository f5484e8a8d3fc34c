/** The server-sent events reader: a buffer normalised and cut into blocks as chunks of decoded text arrive. */
module SseFraming {
  import opened Sequences

  // ---------- line ends ----------

  /** `replace(/\r\n/g, '\n')`. */
  function Normalise(s: string): string {
    if |s| < 2 then s
    else if s[0] == '\r' && s[1] == '\n' then "\n" + Normalise(s[2..])
    else [s[0]] + Normalise(s[1..])
  }

  ghost predicate HasCrCrLf(s: string) {
    exists i :: 0 <= i < |s| - 2 && CrCrLfAt(s, i)
  }

  ghost predicate CrCrLfAt(s: string, i: nat)
    requires i + 2 < |s|
  {
    s[i] == '\r' && s[i + 1] == '\r' && s[i + 2] == '\n'
  }

  ghost predicate HasCrLf(s: string) {
    exists i :: 0 <= i < |s| - 1 && s[i] == '\r' && s[i + 1] == '\n'
  }

  lemma NoCrCrLfLater(s: string, k: nat)
    requires !HasCrCrLf(s) && k <= |s|
    ensures !HasCrCrLf(s[k..])
  {
    if HasCrCrLf(s[k..]) {
      var i :| 0 <= i < |s[k..]| - 2 && CrCrLfAt(s[k..], i);
      assert CrCrLfAt(s, k + i);
    }
  }

  lemma {:induction false} NormaliseAppend(u: string, v: string)
    requires u == "" || v == "" || u[|u| - 1] != '\r' || v[0] != '\n'
    ensures Normalise(u + v) == Normalise(u) + Normalise(v)
    decreases |u|
  {
    if u == "" {
      assert u + v == v;
    } else if v == "" {
      assert u + v == u;
    } else if |u| >= 2 && u[0] == '\r' && u[1] == '\n' {
      assert (u + v)[2..] == u[2..] + v;
      NormaliseAppend(u[2..], v);
    } else {
      assert (u + v)[1..] == u[1..] + v;
      NormaliseAppend(u[1..], v);
    }
  }

  lemma NormaliseCrLf(s: string)
    ensures Normalise("\r\n" + s) == "\n" + Normalise(s)
  {
    assert ("\r\n" + s)[2..] == s;
  }

  lemma NormaliseOther(c: char, s: string)
    requires c != '\r' || s == "" || s[0] != '\n'
    ensures Normalise([c] + s) == [c] + Normalise(s)
  {
    assert ([c] + s)[1..] == s;
  }

  lemma FirstStays(c: char, t: string)
    requires t != "" && !HasCrCrLf([c] + t) && !(c == '\r' && t[0] == '\n')
    ensures c != '\r' || Normalise(t)[0] != '\n'
  {
    assert |t| > 1 ==> !CrCrLfAt([c] + t, 0);
  }

  /** Normalising the accumulated buffer again does no harm, as long as no CR CR LF was read. */
  lemma {:induction false} NormaliseAgain(u: string, v: string)
    requires !HasCrCrLf(u)
    ensures Normalise(Normalise(u) + v) == Normalise(u + v)
    decreases |u|
  {
    if |u| >= 2 {
      var k := if u[0] == '\r' && u[1] == '\n' then 2 else 1;
      var t := u[k..];
      NoCrCrLfLater(u, k);
      NormaliseAgain(t, v);
      if k == 2 {
        assert u == "\r\n" + t;
        AgainAfterCrLf(t, v);
      } else {
        assert u == [u[0]] + t;
        AgainAfterOther(u[0], t, v);
      }
    }
  }

  lemma AgainAfterCrLf(t: string, v: string)
    requires Normalise(Normalise(t) + v) == Normalise(t + v)
    ensures Normalise(Normalise("\r\n" + t) + v) == Normalise("\r\n" + t + v)
  {
    NormaliseCrLf(t);
    NormaliseCrLf(t + v);
    Regroup("\r\n", t, v);
    Regroup("\n", Normalise(t), v);
    NormaliseOther('\n', Normalise(t) + v);
  }

  lemma AgainAfterOther(c: char, t: string, v: string)
    requires t != "" && !HasCrCrLf([c] + t) && !(c == '\r' && t[0] == '\n')
    requires Normalise(Normalise(t) + v) == Normalise(t + v)
    ensures Normalise(Normalise([c] + t) + v) == Normalise([c] + t + v)
  {
    FirstStays(c, t);
    NormaliseOther(c, t);
    NormaliseOther(c, t + v);
    Regroup([c], t, v);
    Regroup([c], Normalise(t), v);
    NormaliseOther(c, Normalise(t) + v);
  }

  lemma {:induction false} NormalisedHasNoCrLf(u: string)
    requires !HasCrCrLf(u)
    ensures !HasCrLf(Normalise(u))
    decreases |u|
  {
    if |u| >= 2 {
      var k := if u[0] == '\r' && u[1] == '\n' then 2 else 1;
      NoCrCrLfLater(u, k);
      NormalisedHasNoCrLf(u[k..]);
      var n, rest := Normalise(u), Normalise(u[k..]);
      assert n[1..] == rest;
      assert |u| > 2 ==> !CrCrLfAt(u, 0);
      forall i | 0 <= i < |n| - 1 ensures !(n[i] == '\r' && n[i + 1] == '\n') {
        if i > 0 { assert n[i] == rest[i - 1] && n[i + 1] == rest[i]; }
      }
    }
  }

  lemma {:induction false} NormaliseIsIdentity(s: string)
    requires !HasCrLf(s)
    ensures Normalise(s) == s
  {
    if |s| >= 2 {
      assert !(s[0] == '\r' && s[1] == '\n');
      forall i | 0 <= i < |s[1..]| - 1 ensures !(s[1..][i] == '\r' && s[1..][i + 1] == '\n') {
        assert s[1..][i] == s[i + 1] && s[1..][i + 1] == s[i + 2];
      }
      NormaliseIsIdentity(s[1..]);
    }
  }

  // ---------- blocks ----------

  /** The position of the first empty line's "\n\n", or |s|. */
  function Boundary(s: string): (b: nat)
    ensures b == |s| || b + 1 < |s|
  {
    if |s| < 2 then |s|
    else if s[0] == '\n' && s[1] == '\n' then 0
    else Boundary(s[1..]) + 1
  }

  lemma {:induction false} BoundaryIsFirst(s: string)
    ensures var b := Boundary(s);
            (b < |s| ==> s[b] == '\n' && s[b + 1] == '\n') &&
            forall i :: 0 <= i < b && i + 1 < |s| ==> !(s[i] == '\n' && s[i + 1] == '\n')
  {
    if |s| >= 2 && !(s[0] == '\n' && s[1] == '\n') {
      BoundaryIsFirst(s[1..]);
      assert forall i :: 0 < i && i + 1 < |s| ==> s[i] == s[1..][i - 1] && s[i + 1] == s[1..][i];
    }
  }

  datatype Framing = Framing(blocks: seq<string>, rest: string)

  function Frames(s: string): (f: Framing)
    ensures |f.rest| <= |s|
    decreases |s|
  {
    var b := Boundary(s);
    if b == |s| then Framing([], s)
    else
      var f := Frames(s[b + 2..]);
      Framing([s[..b]] + f.blocks, f.rest)
  }

  lemma {:induction false} BoundaryStays(s: string, w: string)
    requires Boundary(s) < |s|
    ensures Boundary(s + w) == Boundary(s)
  {
    if !(s[0] == '\n' && s[1] == '\n') {
      assert (s + w)[1..] == s[1..] + w;
      BoundaryStays(s[1..], w);
    }
  }

  lemma {:induction false} BoundaryOfPrefix(s: string)
    requires Boundary(s) < |s|
    ensures Boundary(s[..Boundary(s) + 2]) == Boundary(s)
  {
    if !(s[0] == '\n' && s[1] == '\n') {
      BoundaryOfPrefix(s[1..]);
      assert s[..Boundary(s) + 2][1..] == s[1..][..Boundary(s) + 1];
    }
  }

  lemma OneBlock(head: string, t: string)
    requires |head| >= 2 && Boundary(head) == |head| - 2
    ensures Frames(head + t) == Framing([head[..|head| - 2]] + Frames(t).blocks, Frames(t).rest)
  {
    BoundaryStays(head, t);
    assert (head + t)[..|head| - 2] == head[..|head| - 2] && (head + t)[|head|..] == t;
  }

  ghost predicate EndsBlock(c: string) {
    c == "" || (|c| >= 2 && c[|c| - 2] == '\n' && c[|c| - 1] == '\n')
  }

  /** The first block with its empty line. */
  lemma FirstBlock(s: string) returns (head: string, t: string)
    requires Boundary(s) < |s|
    ensures s == head + t && |head| >= 2 && Boundary(head) == |head| - 2 && EndsBlock(head)
  {
    BoundaryOfPrefix(s);
    BoundaryIsFirst(s);
    head, t := s[..Boundary(s) + 2], s[Boundary(s) + 2..];
  }

  /** Text c makes up these blocks, and what follows it is cut as if it stood alone. */
  ghost predicate CutsOffBefore(c: string, blocks: seq<string>, w: string) {
    Frames(c + w) == Framing(blocks + Frames(w).blocks, Frames(w).rest)
  }

  ghost predicate CutsOff(c: string, blocks: seq<string>) {
    forall w :: CutsOffBefore(c, blocks, w)
  }

  lemma NothingCutsOff()
    ensures CutsOff("", [])
  {
    forall w ensures CutsOffBefore("", [], w) {
      assert "" + w == w && [] + Frames(w).blocks == Frames(w).blocks;
    }
  }

  lemma BlockCutsOff(head: string, d: string, blocks: seq<string>)
    requires |head| >= 2 && Boundary(head) == |head| - 2 && CutsOff(d, blocks)
    ensures CutsOff(head + d, [head[..|head| - 2]] + blocks)
  {
    var c, all := head + d, [head[..|head| - 2]] + blocks;
    forall w ensures CutsOffBefore(c, all, w) {
      BlockCutsOffBefore(head, d, blocks, w);
    }
  }

  lemma BlockCutsOffBefore(head: string, d: string, blocks: seq<string>, w: string)
    requires |head| >= 2 && Boundary(head) == |head| - 2 && CutsOffBefore(d, blocks, w)
    ensures CutsOffBefore(head + d, [head[..|head| - 2]] + blocks, w)
  {
    Regroup(head, d, w);
    Regroup([head[..|head| - 2]], blocks, Frames(w).blocks);
    OneBlock(head, d + w);
  }

  lemma ConsumedMore(head: string, t: string, d: string)
    requires |head| >= 2 && Boundary(head) == |head| - 2 && EndsBlock(head)
    requires t == d + Frames(t).rest && EndsBlock(d) && CutsOff(d, Frames(t).blocks)
    ensures head + t == (head + d) + Frames(head + t).rest && EndsBlock(head + d)
    ensures CutsOff(head + d, Frames(head + t).blocks)
  {
    OneBlock(head, t);
    BlockCutsOff(head, d, Frames(t).blocks);
    Regroup(head, d, Frames(t).rest);
  }

  /** A text is what was consumed, ending with an empty line, and the buffer. */
  lemma {:induction false} Consumed(s: string) returns (c: string)
    ensures s == c + Frames(s).rest && EndsBlock(c) && CutsOff(c, Frames(s).blocks)
    decreases |s|
  {
    if Boundary(s) < |s| {
      var head, t := FirstBlock(s);
      var d := Consumed(t);
      ConsumedMore(head, t, d);
      c := head + d;
    } else {
      NothingCutsOff();
      c := "";
    }
  }

  // ---------- reading chunks ----------

  function Text(chunks: seq<string>): string {
    if chunks == [] then "" else Text(chunks[..|chunks| - 1]) + chunks[|chunks| - 1]
  }

  function Receive(f: Framing, chunk: string): Framing {
    var g := Frames(Normalise(f.rest + chunk));
    Framing(f.blocks + g.blocks, g.rest)
  }

  /** Blocks and buffer after reading the chunks in order. */
  function Received(chunks: seq<string>): Framing {
    if chunks == [] then Framing([], "") else Receive(Received(chunks[..|chunks| - 1]), chunks[|chunks| - 1])
  }

  lemma NoCrLfBefore(s: string, k: nat)
    requires !HasCrLf(s) && k <= |s|
    ensures !HasCrLf(s[..k])
  {
    forall i | 0 <= i < k - 1 ensures !(s[..k][i] == '\r' && s[..k][i + 1] == '\n') {
      assert s[..k][i] == s[i] && s[..k][i + 1] == s[i + 1];
    }
  }

  lemma NoCrCrLfBefore(s: string, c: string)
    requires !HasCrCrLf(s + c)
    ensures !HasCrCrLf(s)
  {
    if HasCrCrLf(s) {
      var i :| 0 <= i < |s| - 2 && CrCrLfAt(s, i);
      assert CrCrLfAt(s + c, i);
    }
  }

  /** Blocks and buffer always make up the normalised prefix read so far; one more chunk keeps it so. */
  lemma ReceiveFollowsText(u: string, c: string)
    requires !HasCrCrLf(u)
    ensures Receive(Frames(Normalise(u)), c) == Frames(Normalise(u + c))
  {
    var n := Normalise(u);
    var rest := Frames(n).rest;
    var head := Consumed(n);
    NormaliseAgain(u, c);
    NormalisedHasNoCrLf(u);
    Untouched(head, rest, c);
    assert CutsOffBefore(head, Frames(n).blocks, Normalise(rest + c));
  }

  lemma Untouched(head: string, rest: string, c: string)
    requires EndsBlock(head) && !HasCrLf(head + rest)
    ensures Normalise(head + rest + c) == head + Normalise(rest + c)
  {
    assert (head + rest)[..|head|] == head;
    NoCrLfBefore(head + rest, |head|);
    NormaliseIsIdentity(head);
    assert head + rest + c == head + (rest + c);
    NormaliseAppend(head, rest + c);
  }

  lemma {:induction false} ReceivedIsWhole(chunks: seq<string>)
    requires !HasCrCrLf(Text(chunks))
    ensures Received(chunks) == Frames(Normalise(Text(chunks)))
  {
    if chunks != [] {
      var front, last := chunks[..|chunks| - 1], chunks[|chunks| - 1];
      NoCrCrLfBefore(Text(front), last);
      ReceivedIsWhole(front);
      ReceiveFollowsText(Text(front), last);
    }
  }

  // ---------- exactly when the cuts do not matter ----------

  /** Characters in blocks, their empty lines and the buffer. */
  function Size(blocks: seq<string>): nat {
    if blocks == [] then 0 else Size(blocks[..|blocks| - 1]) + |blocks[|blocks| - 1]| + 2
  }

  lemma {:induction false} SizeAppend(a: seq<string>, b: seq<string>)
    ensures Size(a + b) == Size(a) + Size(b)
    decreases |b|
  {
    if b == [] {
      assert a + b == a;
    } else {
      assert (a + b)[..|a + b| - 1] == a + b[..|b| - 1];
      SizeAppend(a, b[..|b| - 1]);
    }
  }

  lemma {:induction false} SizeOfFrames(s: string)
    ensures Size(Frames(s).blocks) + |Frames(s).rest| == |s|
    decreases |s|
  {
    if Boundary(s) < |s| {
      var head, t := FirstBlock(s);
      OneBlock(head, t);
      SizeOfFrames(t);
      SizeAppend([head[..|head| - 2]], Frames(t).blocks);
    }
  }

  lemma NormaliseShortens(s: string)
    ensures |Normalise(s)| <= |s|
  {
  }

  lemma NormaliseCrCrLf(a: string)
    ensures Normalise(a + "\r\r\n") == Normalise(a) + "\r\n"
  {
    assert a + "\r\r\n" == (a + "\r") + "\r\n";
    NormaliseAppend(a + "\r", "\r\n");
    NormaliseAppend(a, "\r");
    assert Normalise(a) + "\r" + "\n" == Normalise(a) + "\r\n";
    assert "\r\n"[2..] == "";
    assert Normalise("\r\n") == "\n" + Normalise("");
  }

  /** Text up to and including a CR CR LF leaves a CR LF at the end of the buffer. */
  lemma CrLfLeft(a: string)
    ensures var rest := Frames(Normalise(a) + "\r\n").rest; |rest| >= 2 && rest[|rest| - 2..] == "\r\n"
  {
    var n := Normalise(a) + "\r\n";
    var c := Consumed(n);
    var rest := Frames(n).rest;
    assert n[|n| - 2] == '\r' && n[|n| - 1] == '\n';
    assert rest == n[|c|..];
  }

  /** Cut after the CR CR LF, the reader loses a character that it keeps on the whole text. */
  lemma CutAfterCrCrLf(a: string, b: string)
    ensures Received([a + "\r\r\n", b]) != Frames(Normalise(a + "\r\r\n" + b))
  {
    var u := a + "\r\r\n";
    NormaliseCrCrLf(a);
    CrLfLeft(a);
    var f := Frames(Normalise(u));
    var g := Frames(Normalise(f.rest + b));
    TwoChunks(u, b);
    SizeOfFrames(Normalise(u));
    SizeOfFrames(Normalise(f.rest + b));
    SizeOfFrames(Normalise(u + b));
    SizeAppend(f.blocks, g.blocks);
    NormaliseAppend(u, b);
    NormaliseAppend(f.rest, b);
    var k := |f.rest| - 2;
    assert f.rest == f.rest[..k] + "\r\n";
    NormaliseAppend(f.rest[..k], "\r\n");
    NormaliseShortens(f.rest[..k]);
  }

  lemma OneChunk(u: string)
    ensures Received([u]) == Frames(Normalise(u)) && Text([u]) == u
  {
    assert [u][..0] == [] && "" + u == u;
    var f := Frames(Normalise(u));
    assert [] + f.blocks == f.blocks;
  }

  lemma TwoChunks(u: string, b: string)
    ensures Received([u, b]) == Receive(Frames(Normalise(u)), b) && Text([u, b]) == u + b
  {
    OneChunk(u);
    assert [u, b][..1] == [u];
  }

  lemma SplitAtCrCrLf(text: string) returns (a: string, b: string)
    requires HasCrCrLf(text)
    ensures text == a + "\r\r\n" + b
  {
    var i :| 0 <= i < |text| - 2 && CrCrLfAt(text, i);
    a, b := text[..i], text[i + 3..];
  }

  ghost predicate ReadsAsWhole(chunks: seq<string>) {
    Received(chunks) == Frames(Normalise(Text(chunks)))
  }

  lemma CutThatMatters(text: string) returns (chunks: seq<string>)
    requires HasCrCrLf(text)
    ensures Text(chunks) == text && !ReadsAsWhole(chunks)
  {
    var a, b := SplitAtCrCrLf(text);
    chunks := [a + "\r\r\n", b];
    CutAfterCrCrLf(a, b);
    TwoChunks(a + "\r\r\n", b);
  }

  /** Chunk invariance: every way of cutting a text gives the blocks and the buffer of the whole text exactly when the text
      holds no CR CR LF. */
  lemma ChunkInvariantIff(text: string)
    ensures (forall chunks :: Text(chunks) == text ==> ReadsAsWhole(chunks)) <==> !HasCrCrLf(text)
  {
    if HasCrCrLf(text) {
      var chunks := CutThatMatters(text);
    } else {
      forall chunks | Text(chunks) == text ensures ReadsAsWhole(chunks) {
        ReceivedIsWhole(chunks);
      }
    }
  }
}
