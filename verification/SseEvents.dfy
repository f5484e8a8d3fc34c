/** From blocks to events: the fields of a block, the reading loop, and delivery of an encoded stream. */
module SseEvents {
  import opened Options
  import opened Sequences
  import opened SseFraming

  // ---------- text helpers of the source language ----------

  /** The white space and line terminators that trimming removes. */
  predicate IsSpace(c: char) {
    c == ' ' || '\t' <= c <= '\r' || c == '\U{A0}' || c == '\U{1680}' || '\U{2000}' <= c <= '\U{200A}' ||
    c == '\U{2028}' || c == '\U{2029}' || c == '\U{202F}' || c == '\U{205F}' || c == '\U{3000}' || c == '\U{FEFF}'
  }

  function TrimStart(s: string): string {
    if s != "" && IsSpace(s[0]) then TrimStart(s[1..]) else s
  }

  function TrimEnd(s: string): string {
    if s != "" && IsSpace(s[|s| - 1]) then TrimEnd(s[..|s| - 1]) else s
  }

  function Trim(s: string): string {
    TrimEnd(TrimStart(s))
  }

  /** The characters that trimming removes, by code point. */
  lemma WhiteSpace(c: char)
    ensures var n := c as int;
            IsSpace(c) <==> 9 <= n <= 13 || n == 32 || n == 160 || n == 5760 || 8192 <= n <= 8202 || n == 8232 || n == 8233 ||
                            n == 8239 || n == 8287 || n == 12288 || n == 65279
  {
  }

  ghost predicate AllSpace(s: string) {
    forall i :: 0 <= i < |s| ==> IsSpace(s[i])
  }

  /** What is cut off at the front is white space, and the rest does not begin with any. */
  lemma {:induction false} TrimStartCuts(s: string) returns (cut: string)
    ensures s == cut + TrimStart(s) && AllSpace(cut) && (TrimStart(s) == "" || !IsSpace(TrimStart(s)[0]))
  {
    if s != "" && IsSpace(s[0]) {
      var more := TrimStartCuts(s[1..]);
      cut := [s[0]] + more;
    } else {
      cut := "";
    }
  }

  /** What is cut off at the end is white space, and the rest does not end with any. */
  lemma {:induction false} TrimEndCuts(s: string) returns (cut: string)
    ensures s == TrimEnd(s) + cut && AllSpace(cut) && (TrimEnd(s) == "" || !IsSpace(TrimEnd(s)[|TrimEnd(s)| - 1]))
  {
    if s != "" && IsSpace(s[|s| - 1]) {
      var more := TrimEndCuts(s[..|s| - 1]);
      cut := more + [s[|s| - 1]];
    } else {
      cut := "";
    }
  }

  lemma {:induction false} TrimStartSkips(pad: string, s: string)
    requires AllSpace(pad) && (s == "" || !IsSpace(s[0]))
    ensures TrimStart(pad + s) == s
  {
    if pad == "" {
      assert pad + s == s;
    } else {
      assert (pad + s)[1..] == pad[1..] + s;
      TrimStartSkips(pad[1..], s);
    }
  }

  lemma {:induction false} TrimEndSkips(s: string, pad: string)
    requires AllSpace(pad) && (s == "" || !IsSpace(s[|s| - 1]))
    ensures TrimEnd(s + pad) == s
  {
    if pad == "" {
      assert s + pad == s;
    } else {
      assert (s + pad)[..|s + pad| - 1] == s + pad[..|pad| - 1];
      TrimEndSkips(s, pad[..|pad| - 1]);
    }
  }

  /** Neither begins nor ends with white space. */
  ghost predicate Bare(s: string) {
    s == "" || (!IsSpace(s[0]) && !IsSpace(s[|s| - 1]))
  }

  lemma TrimPadded(before: string, value: string, after: string)
    requires AllSpace(before) && Bare(value) && AllSpace(after)
    ensures Trim(before + value + after) == value
  {
    Regroup(before, value, after);
    if value == "" {
      assert before + (value + after) == (before + after) + "" && value + after == after;
      TrimStartSkips(before + after, "");
    } else {
      TrimStartSkips(before, value + after);
      TrimEndSkips(value, after);
    }
  }

  function LineEnd(s: string): (k: nat)
    ensures k <= |s|
  {
    if s == "" || s[0] == '\n' then 0 else LineEnd(s[1..]) + 1
  }

  /** `split('\n')`. */
  function Lines(s: string): seq<string>
    decreases |s|
  {
    var k := LineEnd(s);
    if k == |s| then [s] else [s[..k]] + Lines(s[k + 1..])
  }

  /** `join('\n')`. */
  function Join(lines: seq<string>): string {
    if lines == [] then "" else if |lines| == 1 then lines[0] else lines[0] + ("\n" + Join(lines[1..]))
  }

  // ---------- fields ----------

  /** What follows the prefix in the first line that has it. */
  function Field(lines: seq<string>, prefix: string): Option<string> {
    if lines == [] then None
    else if prefix <= lines[0] then Some(Trim(lines[0][|prefix|..]))
    else Field(lines[1..], prefix)
  }

  function DataLines(lines: seq<string>): seq<string> {
    if lines == [] then []
    else (if "data:" <= lines[0] then [TrimStart(lines[0][5..])] else []) + DataLines(lines[1..])
  }

  /** `find`: the first line with the prefix decides. */
  lemma {:induction false} FieldIsFirst(lines: seq<string>, prefix: string, k: nat)
    requires k < |lines| && prefix <= lines[k] && forall i :: 0 <= i < k ==> !(prefix <= lines[i])
    ensures Field(lines, prefix) == Some(Trim(lines[k][|prefix|..]))
  {
    if k > 0 { FieldIsFirst(lines[1..], prefix, k - 1); }
  }

  lemma {:induction false} NoField(lines: seq<string>, prefix: string, more: seq<string>)
    requires forall i :: 0 <= i < |lines| ==> !(prefix <= lines[i])
    ensures Field(lines + more, prefix) == Field(more, prefix)
  {
    if lines == [] {
      assert lines + more == more;
    } else {
      assert (lines + more)[1..] == lines[1..] + more;
      NoField(lines[1..], prefix, more);
    }
  }

  /** `filter` and `map`: each data line gives its text, the others nothing, in order. */
  lemma {:induction false} DataLinesAppend(a: seq<string>, b: seq<string>)
    ensures DataLines(a + b) == DataLines(a) + DataLines(b)
  {
    if a == [] {
      assert a + b == b;
    } else {
      assert (a + b)[1..] == a[1..] + b;
      DataLinesAppend(a[1..], b);
    }
  }

  lemma {:induction false} NoData(lines: seq<string>)
    requires forall i :: 0 <= i < |lines| ==> !("data:" <= lines[i])
    ensures DataLines(lines) == []
  {
    if lines != [] { NoData(lines[1..]); }
  }

  datatype Event = Event(id: Option<string>, data: string)

  function Emission(block: string, eventName: string): seq<Event> {
    var lines := Lines(block);
    var data := Join(DataLines(lines));
    if Field(lines, "event:") == Some(eventName) && data != "" then [Event(Field(lines, "id:"), data)] else []
  }

  function Emissions(blocks: seq<string>, eventName: string): seq<Event> {
    if blocks == [] then [] else Emissions(blocks[..|blocks| - 1], eventName) + Emission(blocks[|blocks| - 1], eventName)
  }

  lemma {:induction false} EmissionsAppend(a: seq<string>, b: seq<string>, eventName: string)
    ensures Emissions(a + b, eventName) == Emissions(a, eventName) + Emissions(b, eventName)
    decreases |b|
  {
    if b == [] {
      assert a + b == a;
    } else {
      assert (a + b)[..|a + b| - 1] == a + b[..|b| - 1];
      EmissionsAppend(a, b[..|b| - 1], eventName);
    }
  }

  // ---------- the reading loop ----------

  /** Emits the events of every complete block of the buffer and keeps the rest. */
  method DrainBuffer(input: string, eventName: string) returns (buffer: string, emitted: seq<Event>)
    ensures buffer == Frames(input).rest && emitted == Emissions(Frames(input).blocks, eventName)
  {
    buffer, emitted := input, [];
    ghost var blocks: seq<string> := [];
    var boundary := Boundary(buffer);
    while boundary < |buffer|
      invariant boundary == Boundary(buffer)
      invariant Frames(input) == Framing(blocks + Frames(buffer).blocks, Frames(buffer).rest)
      invariant emitted == Emissions(blocks, eventName)
      decreases |buffer|
    {
      var block := buffer[..boundary];
      EmissionsAppend(blocks, [block], eventName);
      Regroup(blocks, [block], Frames(buffer[boundary + 2..]).blocks);
      emitted := emitted + Emission(block, eventName);
      buffer := buffer[boundary + 2..];
      blocks := blocks + [block];
      boundary := Boundary(buffer);
    }
    assert blocks + [] == blocks;
  }

  /** `consumeSse` on decoded chunks: what is emitted depends on the text alone, unless it holds a CR CR LF. */
  method ConsumeSse(chunks: seq<string>, eventName: string) returns (emitted: seq<Event>)
    ensures emitted == Emissions(Received(chunks).blocks, eventName)
    ensures !HasCrCrLf(Text(chunks)) ==> emitted == Emissions(Frames(Normalise(Text(chunks))).blocks, eventName)
  {
    emitted := [];
    var buffer := "";
    var i: nat := 0;
    while i < |chunks|
      invariant i <= |chunks|
      invariant buffer == Received(chunks[..i]).rest && emitted == Emissions(Received(chunks[..i]).blocks, eventName)
    {
      ghost var f := Received(chunks[..i]);
      var more;
      buffer, more := DrainBuffer(Normalise(buffer + chunks[i]), eventName);
      emitted := emitted + more;
      assert chunks[..i + 1][..i] == chunks[..i];
      EmissionsAppend(f.blocks, Frames(Normalise(f.rest + chunks[i])).blocks, eventName);
      i := i + 1;
    }
    assert chunks[..i] == chunks;
    if !HasCrCrLf(Text(chunks)) { ReceivedIsWhole(chunks); }
  }

  // ---------- blocks of lines ----------

  ghost predicate NoLf(s: string) {
    forall i :: 0 <= i < |s| ==> s[i] != '\n'
  }

  ghost predicate ProperLines(lines: seq<string>) {
    lines != [] && forall i :: 0 <= i < |lines| ==> lines[i] != "" && NoLf(lines[i])
  }

  lemma {:induction false} LineEndOf(line: string, s: string)
    requires NoLf(line) && (s == "" || s[0] == '\n')
    ensures LineEnd(line + s) == |line|
  {
    if line == "" {
      assert line + s == s;
    } else {
      assert (line + s)[1..] == line[1..] + s;
      LineEndOf(line[1..], s);
    }
  }

  /** Splitting undoes joining. */
  lemma {:induction false} LinesOfJoin(lines: seq<string>)
    requires ProperLines(lines)
    ensures Lines(Join(lines)) == lines
    decreases |lines|
  {
    var l := lines[0];
    if |lines| == 1 {
      LineEndOf(l, "");
      assert l + "" == l && lines == [l];
    } else {
      var s := Join(lines[1..]);
      LineEndOf(l, "\n" + s);
      var all := l + ("\n" + s);
      assert all[..|l|] == l && all[|l| + 1..] == s;
      LinesOfJoin(lines[1..]);
      assert lines == [l] + lines[1..];
    }
  }

  lemma {:induction false} BoundaryBehind(line: string, s: string)
    requires NoLf(line) && |s| >= 1 && (line != "" ==> s[0] == '\n')
    ensures Boundary(line + s) == |line| + Boundary(s)
  {
    if line == "" {
      assert line + s == s;
    } else {
      assert (line + s)[1..] == line[1..] + s;
      BoundaryBehind(line[1..], s);
    }
  }

  lemma FirstChar(lines: seq<string>, s: string)
    requires ProperLines(lines)
    ensures |Join(lines) + s| > 0 && (Join(lines) + s)[0] != '\n'
  {
  }

  lemma {:induction false} BoundaryOfJoin(lines: seq<string>)
    requires ProperLines(lines)
    ensures Boundary(Join(lines) + "\n\n") == |Join(lines)|
    decreases |lines|
  {
    var l := lines[0];
    if |lines| == 1 {
      BoundaryBehind(l, "\n\n");
    } else {
      var t := Join(lines[1..]) + "\n\n";
      BoundaryOfJoin(lines[1..]);
      FirstChar(lines[1..], "\n\n");
      BoundaryBehind(l, "\n" + t);
      assert ("\n" + t)[1..] == t;
      assert Join(lines) + "\n\n" == l + ("\n" + t);
    }
  }

  /** A block made of proper lines is cut off whole, and only when its empty line is complete. */
  lemma BlockOfLines(lines: seq<string>)
    requires ProperLines(lines)
    ensures CutsOff(Join(lines) + "\n\n", [Join(lines)])
  {
    var head := Join(lines) + "\n\n";
    BoundaryOfJoin(lines);
    NothingCutsOff();
    BlockCutsOff(head, "", []);
    assert head + "" == head && [head[..|head| - 2]] + [] == [Join(lines)];
  }

  // ---------- delivery of an encoded stream ----------

  /** A field's value with the white space written around it. */
  datatype Padded = Padded(before: string, value: string, after: string)
  {
    function Written(): string { before + value + after }
  }

  /** A message as a server writes it: lines the reader ignores, an id, an event name and data lines, with white space around the
      values, and with either kind of line end. */
  datatype Message = Message(others: seq<string>, id: Padded, event: Padded, data: seq<Padded>, crlf: bool)

  ghost predicate Plain(s: string) {
    forall i :: 0 <= i < |s| ==> s[i] != '\n' && s[i] != '\r'
  }

  ghost predicate SendableField(f: Padded) {
    Plain(f.before) && Plain(f.value) && Plain(f.after) && AllSpace(f.before) && Bare(f.value) && AllSpace(f.after)
  }

  /** Of a data line only the white space in front is taken off. */
  ghost predicate SendableData(f: Padded) {
    Plain(f.before) && Plain(f.value) && AllSpace(f.before) && (f.value == "" || !IsSpace(f.value[0])) && f.after == ""
  }

  ghost predicate Ignored(line: string) {
    line != "" && Plain(line) && !("id:" <= line) && !("event:" <= line) && !("data:" <= line)
  }

  ghost predicate Sendable(m: Message) {
    SendableField(m.id) && SendableField(m.event) && (forall i :: 0 <= i < |m.others| ==> Ignored(m.others[i])) &&
    forall i :: 0 <= i < |m.data| ==> SendableData(m.data[i])
  }

  function DataFields(data: seq<Padded>): seq<string> {
    if data == [] then [] else ["data:" + data[0].Written()] + DataFields(data[1..])
  }

  function Values(data: seq<Padded>): seq<string> {
    if data == [] then [] else [data[0].value] + Values(data[1..])
  }

  function MessageLines(m: Message): seq<string> {
    m.others + (["id:" + m.id.Written(), "event:" + m.event.Written()] + DataFields(m.data))
  }

  function Terminated(lines: seq<string>, eol: string): string {
    if lines == [] then "" else lines[0] + eol + Terminated(lines[1..], eol)
  }

  function Encode(m: Message): string {
    var eol := if m.crlf then "\r\n" else "\n";
    Terminated(MessageLines(m), eol) + eol
  }

  function Stream(ms: seq<Message>): string {
    if ms == [] then "" else Stream(ms[..|ms| - 1]) + Encode(ms[|ms| - 1])
  }

  /** What the reader should report: the bare values of the messages of that event name that carry data. */
  function Expected(ms: seq<Message>, eventName: string): seq<Event> {
    if ms == [] then []
    else
      var m := ms[|ms| - 1];
      Expected(ms[..|ms| - 1], eventName) +
      if m.event.value == eventName && Join(Values(m.data)) != "" then [Event(Some(m.id.value), Join(Values(m.data)))] else []
  }

  ghost predicate PlainLines(lines: seq<string>) {
    forall i :: 0 <= i < |lines| ==> lines[i] != "" && Plain(lines[i])
  }

  lemma {:induction false} DataFieldsArePlain(data: seq<Padded>)
    requires forall i :: 0 <= i < |data| ==> SendableData(data[i])
    ensures PlainLines(DataFields(data)) && DataLines(DataFields(data)) == Values(data)
  {
    if data != [] {
      var d := data[0];
      var l := "data:" + d.Written();
      assert d.Written() == d.before + d.value;
      assert l[5..] == d.Written() && "data:" <= l;
      TrimStartSkips(d.before, d.value);
      DataFieldsArePlain(data[1..]);
      assert DataFields(data)[1..] == DataFields(data[1..]);
    }
  }

  lemma MessageLinesArePlain(m: Message)
    requires Sendable(m)
    ensures PlainLines(MessageLines(m)) && ProperLines(MessageLines(m))
  {
    DataFieldsArePlain(m.data);
    var two := ["id:" + m.id.Written(), "event:" + m.event.Written()];
    assert PlainLines(two) && PlainLines(m.others);
    PlainTogether(two, DataFields(m.data));
    PlainTogether(m.others, two + DataFields(m.data));
  }

  lemma PlainTogether(a: seq<string>, b: seq<string>)
    requires PlainLines(a) && PlainLines(b)
    ensures PlainLines(a + b)
  {
  }

  ghost predicate IsEol(eol: string) {
    eol == "\n" || eol == "\r\n"
  }

  lemma NormaliseLine(line: string, eol: string)
    requires Plain(line) && IsEol(eol)
    ensures Normalise(line + eol) == line + "\n"
  {
    NormaliseIsIdentity(line);
    NormaliseAppend(line, eol);
    assert eol[|eol|..] == "";
    assert Normalise(eol) == "\n";
  }

  lemma {:induction false} NormaliseTerminated(lines: seq<string>, eol: string)
    requires PlainLines(lines) && IsEol(eol)
    ensures Normalise(Terminated(lines, eol)) == Terminated(lines, "\n")
  {
    if lines != [] {
      NormaliseLine(lines[0], eol);
      NormaliseAppend(lines[0] + eol, Terminated(lines[1..], eol));
      NormaliseTerminated(lines[1..], eol);
    }
  }

  lemma {:induction false} TerminatedIsJoin(lines: seq<string>)
    requires lines != []
    ensures Terminated(lines, "\n") == Join(lines) + "\n"
  {
    if |lines| == 1 {
      assert Terminated(lines[1..], "\n") == "";
    } else {
      TerminatedIsJoin(lines[1..]);
      assert lines[0] + "\n" + (Join(lines[1..]) + "\n") == lines[0] + ("\n" + Join(lines[1..])) + "\n";
    }
  }

  /** Every CR stands before an LF: no cut of such text can confuse the reader. */
  ghost predicate CrOnlyBeforeLf(s: string) {
    forall i :: 0 <= i < |s| && s[i] == '\r' ==> i + 1 < |s| && s[i + 1] == '\n'
  }

  lemma CrAppend(a: string, b: string)
    requires CrOnlyBeforeLf(a) && CrOnlyBeforeLf(b)
    ensures CrOnlyBeforeLf(a + b)
  {
    var c := a + b;
    forall i | 0 <= i < |c| && c[i] == '\r' ensures i + 1 < |c| && c[i + 1] == '\n' {
      if i < |a| { assert a[i] == '\r'; } else { assert b[i - |a|] == '\r'; }
    }
  }

  lemma {:induction false} CrInTerminated(lines: seq<string>, eol: string)
    requires PlainLines(lines) && IsEol(eol)
    ensures CrOnlyBeforeLf(Terminated(lines, eol))
  {
    if lines != [] {
      CrInTerminated(lines[1..], eol);
      assert CrOnlyBeforeLf(lines[0]);
      CrAppend(lines[0], eol);
      CrAppend(lines[0] + eol, Terminated(lines[1..], eol));
    }
  }

  lemma EncodedLines(lines: seq<string>, eol: string)
    requires PlainLines(lines) && lines != [] && IsEol(eol)
    ensures CrOnlyBeforeLf(Terminated(lines, eol) + eol)
    ensures Normalise(Terminated(lines, eol) + eol) == Join(lines) + "\n\n"
  {
    CrInTerminated(lines, eol);
    CrAppend(Terminated(lines, eol), eol);
    NormaliseTerminated(lines, eol);
    TerminatedIsJoin(lines);
    NormaliseLine("", eol);
    assert "" + eol == eol && "" + "\n" == "\n";
    NormaliseAppend(Terminated(lines, eol), eol);
    assert Join(lines) + "\n" + "\n" == Join(lines) + "\n\n";
  }

  lemma EncodedMessage(m: Message)
    requires Sendable(m)
    ensures CrOnlyBeforeLf(Encode(m)) && Normalise(Encode(m)) == Join(MessageLines(m)) + "\n\n"
  {
    MessageLinesArePlain(m);
    EncodedLines(MessageLines(m), if m.crlf then "\r\n" else "\n");
  }

  lemma CutsOffBoth(c: string, a: seq<string>, d: string, b: seq<string>)
    requires CutsOff(c, a) && CutsOff(d, b)
    ensures CutsOff(c + d, a + b)
  {
    var t, all := c + d, a + b;
    forall w ensures CutsOffBefore(t, all, w) {
      assert CutsOffBefore(d, b, w) && CutsOffBefore(c, a, d + w);
      Regroup(c, d, w);
      Regroup(a, b, Frames(w).blocks);
    }
  }

  function Blocks(ms: seq<Message>): seq<string> {
    if ms == [] then [] else Blocks(ms[..|ms| - 1]) + [Join(MessageLines(ms[|ms| - 1]))]
  }

  ghost predicate AllSendable(ms: seq<Message>) {
    forall i :: 0 <= i < |ms| ==> Sendable(ms[i])
  }

  lemma {:induction false} StreamBlocks(ms: seq<Message>)
    requires AllSendable(ms)
    ensures CrOnlyBeforeLf(Stream(ms)) && CutsOff(Normalise(Stream(ms)), Blocks(ms))
  {
    if ms == [] {
      NothingCutsOff();
    } else {
      var front, m := ms[..|ms| - 1], ms[|ms| - 1];
      StreamBlocks(front);
      EncodedMessage(m);
      CrAppend(Stream(front), Encode(m));
      MessageLinesArePlain(m);
      BlockOfLines(MessageLines(m));
      if Stream(front) != "" && Stream(front)[|Stream(front)| - 1] == '\r' { assert false; }
      NormaliseAppend(Stream(front), Encode(m));
      CutsOffBoth(Normalise(Stream(front)), Blocks(front), Normalise(Encode(m)), [Join(MessageLines(m))]);
    }
  }

  lemma FieldsOfMessage(m: Message)
    requires Sendable(m)
    ensures Field(MessageLines(m), "id:") == Some(m.id.value) && Field(MessageLines(m), "event:") == Some(m.event.value)
    ensures DataLines(MessageLines(m)) == Values(m.data)
  {
    var i, e := "id:" + m.id.Written(), "event:" + m.event.Written();
    var rest := [i, e] + DataFields(m.data);
    NoField(m.others, "id:", rest);
    NoField(m.others, "event:", rest);
    NoData(m.others);
    DataLinesAppend(m.others, rest);
    TwoFields(i, e, DataFields(m.data));
    assert i[3..] == m.id.Written() && e[6..] == m.event.Written();
    TrimPadded(m.id.before, m.id.value, m.id.after);
    TrimPadded(m.event.before, m.event.value, m.event.after);
    DataFieldsArePlain(m.data);
  }

  lemma TwoFields(i: string, e: string, data: seq<string>)
    requires "id:" <= i && "event:" <= e
    ensures Field([i, e] + data, "id:") == Some(Trim(i[3..])) && Field([i, e] + data, "event:") == Some(Trim(e[6..]))
    ensures DataLines([i, e] + data) == DataLines(data)
  {
    assert i[0] == 'i' && e[0] == 'e';
    FieldIsFirst([i, e] + data, "id:", 0);
    FieldIsFirst([i, e] + data, "event:", 1);
    DataLinesAppend([i, e], data);
    NoData([i, e]);
    assert [] + DataLines(data) == DataLines(data);
  }

  lemma {:induction false} BlocksEmit(ms: seq<Message>, eventName: string)
    requires AllSendable(ms)
    ensures Emissions(Blocks(ms), eventName) == Expected(ms, eventName)
  {
    if ms != [] {
      var front, m := ms[..|ms| - 1], ms[|ms| - 1];
      BlocksEmit(front, eventName);
      MessageLinesArePlain(m);
      LinesOfJoin(MessageLines(m));
      FieldsOfMessage(m);
      assert Blocks(ms)[..|Blocks(ms)| - 1] == Blocks(front);
    }
  }

  /** Delivery: however the stream of encoded messages is cut into chunks, the reader emits exactly the messages of its event
      that carry data, each once and in order, and is left with an empty buffer. */
  lemma StreamIsDelivered(ms: seq<Message>, chunks: seq<string>, eventName: string)
    requires AllSendable(ms) && Text(chunks) == Stream(ms)
    ensures Emissions(Received(chunks).blocks, eventName) == Expected(ms, eventName) && Received(chunks).rest == ""
  {
    StreamBlocks(ms);
    NoConfusion(Stream(ms));
    ReceivedIsWhole(chunks);
    var n := Normalise(Stream(ms));
    assert CutsOffBefore(n, Blocks(ms), "");
    assert n + "" == n && Blocks(ms) + [] == Blocks(ms);
    BlocksEmit(ms, eventName);
  }

  lemma NoConfusion(s: string)
    requires CrOnlyBeforeLf(s)
    ensures !HasCrCrLf(s)
  {
    forall i | 0 <= i < |s| - 2 ensures !CrCrLfAt(s, i) {
      if s[i] == '\r' { assert s[i + 1] == '\n'; }
    }
  }

  // ---------- a cut that matters ----------

  function TwoLines(data: string): seq<string> {
    ["event:e", "data:" + data]
  }

  lemma TwoLinesAreProper(data: string)
    requires data != "" && NoLf(data)
    ensures ProperLines(TwoLines(data)) && Join(TwoLines(data)) == "event:e" + ("\n" + ("data:" + data))
  {
    assert TwoLines(data)[1..] == ["data:" + data];
  }

  lemma TwoLinesEmit(data: string)
    requires data != "" && NoLf(data) && !IsSpace(data[0])
    ensures Emissions([Join(TwoLines(data))], "e") == [Event(None, data)]
  {
    var lines, e, d := TwoLines(data), "event:e", "data:" + data;
    TwoLinesAreProper(data);
    LinesOfJoin(lines);
    assert e[0] == 'e' && d[0] == 'd' && d[5..] == data && e[6..] == "e";
    assert lines[1..] == [d] && lines[1..][1..] == [];
    assert Field([d], "id:") == None && Field(lines, "id:") == None;
    assert Trim("e") == "e" && Field(lines, "event:") == Some("e");
    assert DataLines([d]) == [data] && DataLines(lines) == [] + DataLines([d]) == [data];
    assert [Join(lines)][..0] == [];
  }

  lemma WholeBlock(lines: seq<string>)
    requires ProperLines(lines)
    ensures Frames(Join(lines) + "\n\n") == Framing([Join(lines)], "")
  {
    var b := Join(lines) + "\n\n";
    BlockOfLines(lines);
    assert CutsOffBefore(b, [Join(lines)], "");
    assert b + "" == b;
  }

  /** The text of an event whose last line ends in CR CR LF, up to and including that LF. */
  function LateText(data: string): string {
    Join(TwoLines(data)) + "\r\r\n"
  }

  lemma NormaliseLate(data: string)
    requires data != "" && Plain(data)
    ensures Normalise(LateText(data)) == Join(TwoLines(data)) + "\r\n"
    ensures Normalise(Join(TwoLines(data)) + "\r\n") == Join(TwoLines(data)) + "\n"
  {
    var a := Join(TwoLines(data));
    TwoLinesAreProper(data);
    NormaliseIsIdentity(a);
    NormaliseCrCrLf(a);
    NormaliseAppend(a, "\r\n");
    assert "\r\n"[2..] == "" && Normalise("\r\n") == "\n";
  }

  lemma TwoLinesWithCr(data: string)
    requires data != "" && NoLf(data)
    ensures Join(TwoLines(data + "\r")) == Join(TwoLines(data)) + "\r"
  {
    TwoLinesAreProper(data);
    TwoLinesAreProper(data + "\r");
  }

  lemma NoBlockYet(data: string)
    requires data != "" && Plain(data)
    ensures Frames(Join(TwoLines(data)) + "\r\n") == Framing([], Join(TwoLines(data)) + "\r\n")
  {
    TwoLinesAreProper(data);
    var s, t := Join(TwoLines(data)) + "\r\n", "data:" + data + "\r" + "\n";
    assert s == "event:e" + ("\n" + t);
    BoundaryBehind("data:" + data + "\r", "\n");
    BoundaryBehind("event:e", "\n" + t);
    assert ("\n" + t)[1..] == t;
  }

  /** Read whole, the CR stays in the data. */
  lemma ReadWhole(data: string)
    requires data != "" && Plain(data) && !IsSpace(data[0])
    ensures Emissions(Received([LateText(data) + "\n"]).blocks, "e") == [Event(None, data + "\r")]
  {
    OneChunk(LateText(data) + "\n");
    NormaliseLate(data);
    NormaliseAppend(LateText(data), "\n");
    TwoLinesWithCr(data);
    TwoLinesAreProper(data + "\r");
    assert Join(TwoLines(data)) + "\r\n" + "\n" == Join(TwoLines(data)) + "\r" + "\n\n";
    WholeBlock(TwoLines(data + "\r"));
    TwoLinesEmit(data + "\r");
  }

  /** Cut before the last line end, the CR is taken for half of a CR LF and dropped. */
  lemma ReadCut(data: string)
    requires data != "" && Plain(data) && !IsSpace(data[0])
    ensures Emissions(Received([LateText(data), "\n"]).blocks, "e") == [Event(None, data)]
  {
    var rest, block := Join(TwoLines(data)) + "\r\n", Join(TwoLines(data));
    TwoChunks(LateText(data), "\n");
    NormaliseLate(data);
    NoBlockYet(data);
    NormaliseAppend(rest, "\n");
    assert block + "\n" + "\n" == block + "\n\n";
    TwoLinesAreProper(data);
    WholeBlock(TwoLines(data));
    assert [] + [block] == [block];
    TwoLinesEmit(data);
  }

  /** With a CR CR LF, two cuts of one text emit different data. */
  lemma CutChangesData(data: string)
    requires data != "" && Plain(data) && !IsSpace(data[0])
    ensures Text([LateText(data), "\n"]) == Text([LateText(data) + "\n"])
    ensures Emissions(Received([LateText(data) + "\n"]).blocks, "e") != Emissions(Received([LateText(data), "\n"]).blocks, "e")
  {
    ReadWhole(data);
    ReadCut(data);
    TwoChunks(LateText(data), "\n");
    OneChunk(LateText(data) + "\n");
  }
}
