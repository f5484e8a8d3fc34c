/** Financial commands: one idempotency key per operation, kept while the outcome is unknown. */
module FinancialCommand {
  import opened Options

  type Key = nat

  /** What the awaited request throws; `aboutKey` says whether the message names the idempotency key. */
  datatype Failure = Other | NoResponse | Response(status: int, aboutKey: bool)

  datatype Outcome = Success | Failed(error: Failure)

  /** The errors after which the operation may still have taken effect. */
  predicate Retain(f: Failure, uncertain: bool) {
    match f
    case Other => false
    case NoResponse => true
    case Response(status, aboutKey) =>
      status == 425 || status >= 500 || (status == 409 && aboutKey) || (uncertain && (status == 401 || status == 403))
  }

  /** Answers that say nothing about whether the operation took effect: none at all, "too early", any server or gateway error, a
      conflict about the key itself, and, for a repeated transmission, a refusal to authenticate or authorise. */
  predicate SaysNothing(f: Failure, retried: bool) {
    f == NoResponse ||
    (f.Response? && (f.status == 425 || f.status >= 500)) ||
    (f.Response? && f.status == 409 && f.aboutKey) ||
    (f.Response? && f.status in {401, 403} && retried)
  }

  lemma RetainedIffSaysNothing(f: Failure, uncertain: bool)
    ensures Retain(f, uncertain) <==> SaysNothing(f, uncertain)
  {
  }

  // ---------- the client as values ----------

  /** `request` is the request of the run that holds the gate. */
  datatype Client<Op> = Client(key: Option<Key>, uncertain: bool, previous: Option<Op>, request: Option<Op>)

  function Starting<Op>(c: Client<Op>, operation: Op, newKey: Key): Client<Op> {
    if c.request.Some? then c
    else c.(key := Some(if c.key.Some? then c.key.value else newKey),
            request := Some(if c.previous.Some? then c.previous.value else operation))
  }

  function Failing<Op>(c: Client<Op>, f: Failure): Client<Op> {
    var retain := Retain(f, c.uncertain);
    var key := if retain then c.key else None;
    Client(key, retain, if key.Some? then c.request else None, None)
  }

  /** After the awaited request: `afterwards` is what the completion callback throws, if it does. */
  function Settling<Op>(c: Client<Op>, outcome: Outcome, afterwards: Option<Failure>): Client<Op> {
    match outcome
    case Failed(f) => Failing(c, f)
    case Success =>
      var done := c.(key := None, uncertain := false, previous := None);
      if afterwards.Some? then Failing(done, afterwards.value) else done.(request := None)
  }

  /** A success leaves nothing behind: the next operation starts afresh. Only a completion callback that throws one of the
      retained errors leaves the doubt on. */
  lemma SuccessResets<Op>(c: Client<Op>, afterwards: Option<Failure>)
    ensures Settling(c, Success, afterwards) ==
            Client(None, afterwards.Some? && SaysNothing(afterwards.value, false), None, None)
  {
  }

  /** A failure either keeps key and request for a retry, in doubt, or gives both up. */
  lemma FailureKeepsOrGivesUp<Op>(c: Client<Op>, f: Failure, afterwards: Option<Failure>)
    requires c.key.Some? && c.request.Some?
    ensures Settling(c, Failed(f), afterwards) ==
            if SaysNothing(f, c.uncertain) then Client(c.key, true, c.request, None) else Client(None, false, None, None)
  {
  }

  // ---------- the source's objects ----------

  class IdempotencyKeyManager {
    var key: Option<Key>
    var uncertain: bool

    constructor ()
      ensures key.None? && !uncertain
    {
      key, uncertain := None, false;
    }

    /** `newKey` is the key the generator would produce. */
    method Begin(newKey: Key) returns (k: Key)
      modifies this`key
      ensures key == Some(k) && k == if old(key).Some? then old(key).value else newKey
    {
      if key.None? { key := Some(newKey); }
      k := key.value;
    }

    method Succeeded()
      modifies this
      ensures key.None? && !uncertain
    {
      key, uncertain := None, false;
    }

    method Fail(error: Failure)
      modifies this
      ensures uncertain == SaysNothing(error, old(uncertain)) && key == if uncertain then old(key) else None
    {
      var retainForRetry := Retain(error, uncertain);
      uncertain := retainForRetry;
      if !retainForRetry { key := None; }
    }

    function PendingKey(): (k: Option<Key>)
      reads this
    {
      key
    }
  }

  /** The hook's references. `run` is split at its await: other calls may come in between. */
  class Command<Op(==)> {
    const keys: IdempotencyKeyManager
    var gate: bool
    var previous: Option<Op>
    var request: Option<Op>
    var pending: bool

    ghost predicate Valid()
      reads this, keys
    {
      gate == request.Some? && (gate || pending == previous.Some?)
    }

    ghost function View(): Client<Op>
      reads this, keys
    {
      Client(keys.key, keys.uncertain, previous, request)
    }

    constructor ()
      ensures Valid() && fresh(keys) && View() == Client(None, false, None, None)
    {
      keys := new IdempotencyKeyManager();
      gate, previous, request, pending := false, None, None, false;
    }

    /** Up to the await; returns what is sent, or nothing when another run holds the gate. */
    method Start(operation: Op, newKey: Key) returns (sent: Option<(Key, Op)>)
      requires Valid()
      modifies this, keys
      ensures Valid() && View() == Starting(old(View()), operation, newKey)
      ensures sent.None? <==> old(View()).request.Some?
      ensures sent.Some? ==> View().key == Some(sent.value.0) && View().request == Some(sent.value.1)
    {
      if gate { return None; }
      gate := true;
      request := Some(if previous.Some? then previous.value else operation);
      var k := keys.Begin(newKey);
      sent := Some((k, request.value));
    }

    /** From the await to the end of the finally block. */
    method Settle(outcome: Outcome, afterwards: Option<Failure>)
      requires Valid() && gate
      modifies this, keys
      ensures Valid() && View() == Settling(old(View()), outcome, afterwards)
    {
      var error := if outcome.Failed? then Some(outcome.error) else afterwards;
      if outcome.Success? {
        keys.Succeeded();
        previous, pending := None, false;
      }
      if error.Some? {
        keys.Fail(error.value);
        previous := if keys.PendingKey().Some? then request else None;
        pending := previous.Some?;
      }
      gate, request := false, None;
    }
  }

  // ---------- client, network and server ----------

  /** One transmission; `intent` numbers the operations in the order in which they were first sent. */
  datatype Sent<Op> = Sent(intent: nat, op: Op, key: Key)

  /** `applied` is every effect on the server, in order. */
  datatype World<Op> = World(client: Client<Op>, intent: nat, sent: seq<Sent<Op>>, applied: seq<Sent<Op>>,
                             succeeded: set<nat>, rejected: set<nat>)

  datatype Step<Op> =
    | Call(operation: Op, newKey: Key)                         // someone calls run
    | Serve(i: nat)                                           // a transmission reaches the server, perhaps late or twice
    | Answer(outcome: Outcome, afterwards: Option<Failure>)   // the awaited request settles

  function Applied<Op>(w: World<Op>, key: Key): bool {
    exists i :: 0 <= i < |w.applied| && w.applied[i].key == key
  }

  /** What a call sends: the unresolved request under its key if there is one, and the new operation under the new key
      otherwise; nothing while a request is under way. */
  lemma CallSends<Op>(w: World<Op>, operation: Op, newKey: Key)
    requires Sound(w) && Allowed(w, Call(operation, newKey))
    ensures var v := Do(w, Call(operation, newKey));
            v.sent == w.sent + if w.client.request.Some? then []
                               else if w.client.previous.Some? then [w.sent[|w.sent| - 1]]
                               else [Sent(w.intent + 1, operation, newKey)]
  {
  }

  /** The current operation has been sent before. */
  predicate Retried<Op>(w: World<Op>) {
    exists i :: 0 <= i < |w.sent| - 1 && w.sent[i].intent == w.intent
  }

  /** The promises of the surroundings: generated keys are new; a success is a replay or an application; any other answer but
      those that say nothing means that the key has not been applied. */
  predicate Allowed<Op>(w: World<Op>, s: Step<Op>) {
    match s
    case Call(_, newKey) => forall i :: 0 <= i < |w.sent| ==> w.sent[i].key != newKey
    case Serve(i) => i < |w.sent|
    case Answer(outcome, _) =>
      w.client.request.Some? && w.client.key.Some? &&
      match outcome
      case Success => Applied(w, w.client.key.value)
      case Failed(f) => SaysNothing(f, Retried(w)) || !Applied(w, w.client.key.value)
  }

  function Do<Op>(w: World<Op>, s: Step<Op>): World<Op>
    requires Allowed(w, s)
  {
    match s
    case Call(operation, newKey) =>
      if w.client.request.Some? then w
      else
        var c := Starting(w.client, operation, newKey);
        var intent := if w.client.previous.Some? then w.intent else w.intent + 1;
        w.(client := c, intent := intent, sent := w.sent + [Sent(intent, c.request.value, c.key.value)])
    case Serve(i) =>
      if Applied(w, w.sent[i].key) then w else w.(applied := w.applied + [w.sent[i]])
    case Answer(outcome, afterwards) =>
      var c := Settling(w.client, outcome, afterwards);
      if outcome.Success? then w.(client := c, succeeded := w.succeeded + {w.intent})
      else if c.key.None? then w.(client := c, rejected := w.rejected + {w.intent})
      else w.(client := c)
  }

  function Start<Op>(): World<Op> {
    World(Client(None, false, None, None), 0, [], [], {}, {})
  }

  ghost predicate Runs<Op>(w: World<Op>, steps: seq<Step<Op>>)
    decreases |steps|
  {
    steps == [] || (Allowed(w, steps[0]) && Runs(Do(w, steps[0]), steps[1..]))
  }

  ghost function After<Op>(w: World<Op>, steps: seq<Step<Op>>): World<Op>
    requires Runs(w, steps)
    decreases |steps|
  {
    if steps == [] then w else After(Do(w, steps[0]), steps[1..])
  }

  // ---------- invariants ----------

  /** Between runs a key is held exactly for a retained request; during a run the key is held. A request sent before is
      uncertain. */
  ghost predicate Holding<Op>(w: World<Op>) {
    var c := w.client;
    (c.request.Some? ==> c.key.Some? && (c.previous.Some? ==> c.previous == c.request)) &&
    (c.request.None? ==> (c.key.Some? <==> c.previous.Some?)) &&
    (c.previous.Some? ==> c.uncertain) &&
    (c.key.Some? && c.previous.None? ==> !Retried(w))
  }

  /** What the client keeps covers every answer that says nothing. */
  lemma RetainsWhatSaysNothing<Op>(w: World<Op>, f: Failure)
    requires Sound(w) && w.client.key.Some? && SaysNothing(f, Retried(w))
    ensures Retain(f, w.client.uncertain)
  {
  }

  /** The held key and request are those of the latest transmission, of the current operation. */
  ghost predicate Current<Op>(w: World<Op>) {
    var c := w.client;
    c.key.Some? ==>
      w.sent != [] &&
      var last := w.sent[|w.sent| - 1];
      last.intent == w.intent && last.key == c.key.value &&
      (c.request.Some? ==> last.op == c.request.value) && (c.previous.Some? ==> last.op == c.previous.value)
  }

  /** One key, one operation. */
  ghost predicate Matched<Op>(w: World<Op>) {
    (forall i :: 0 <= i < |w.sent| ==> 1 <= w.sent[i].intent <= w.intent) &&
    forall i, j :: 0 <= i < |w.sent| && 0 <= j < |w.sent| && (w.sent[i].key == w.sent[j].key || w.sent[i].intent == w.sent[j].intent)
      ==> w.sent[i] == w.sent[j]
  }

  /** Effects come from transmissions, one per key. */
  ghost predicate Effects<Op>(w: World<Op>) {
    (forall i :: 0 <= i < |w.applied| ==> w.applied[i] in w.sent) &&
    forall i, j :: 0 <= i < j < |w.applied| ==> w.applied[i].key != w.applied[j].key
  }

  ghost predicate TookEffect<Op>(w: World<Op>, intent: nat) {
    exists i :: 0 <= i < |w.applied| && w.applied[i].intent == intent
  }

  /** Every operation but perhaps the current one is resolved, and the current one is unresolved only while its key is held;
      reported successes took effect. */
  ghost predicate Resolved<Op>(w: World<Op>) {
    (forall n :: 1 <= n <= w.intent && n !in w.succeeded && n !in w.rejected ==> n == w.intent && w.client.key.Some?) &&
    (forall n :: n in w.succeeded ==> 1 <= n <= w.intent && TookEffect(w, n)) &&
    (w.client.key.Some? ==> w.intent !in w.succeeded && w.intent !in w.rejected) &&
    (forall n :: n in w.rejected ==> 1 <= n <= w.intent && n !in w.succeeded)
  }

  ghost predicate Sound<Op>(w: World<Op>) {
    Holding(w) && Current(w) && Matched(w) && Effects(w) && Resolved(w)
  }

  lemma CallKeeps<Op>(w: World<Op>, s: Step<Op>)
    requires Sound(w) && s.Call? && Allowed(w, s)
    ensures Sound(Do(w, s))
  {
    if w.client.request.None? {
      var v := Do(w, s);
      var n := |w.sent|;
      assert v.sent[n] == Sent(v.intent, v.client.request.value, v.client.key.value);
      if w.client.previous.Some? { assert v.sent[n] == w.sent[n - 1]; }
      assert Matched(v) by { CallKeepsMatched(w, s); }
      forall i | 0 <= i < |v.applied| ensures v.applied[i] in v.sent { assert w.applied[i] in w.sent; }
      forall m | m in v.succeeded ensures TookEffect(v, m) { assert TookEffect(w, m); }
    }
  }

  lemma CallKeepsMatched<Op>(w: World<Op>, s: Step<Op>)
    requires Sound(w) && s.Call? && Allowed(w, s) && w.client.request.None?
    ensures Matched(Do(w, s))
  {
    var v, n := Do(w, s), |w.sent|;
    if w.client.previous.Some? {
      assert v.sent[n] == w.sent[n - 1];
    } else {
      assert forall i :: 0 <= i < n ==> v.sent[i].key != v.sent[n].key && v.sent[i].intent < v.sent[n].intent;
    }
  }

  lemma ServeKeeps<Op>(w: World<Op>, s: Step<Op>)
    requires Sound(w) && s.Serve? && Allowed(w, s)
    ensures Sound(Do(w, s))
  {
    var v := Do(w, s);
    if !Applied(w, w.sent[s.i].key) {
      forall n | TookEffect(w, n) ensures TookEffect(v, n) {
        var i :| 0 <= i < |w.applied| && w.applied[i].intent == n;
        assert v.applied[i].intent == n;
      }
    }
  }

  lemma AnswerKeeps<Op>(w: World<Op>, s: Step<Op>)
    requires Sound(w) && s.Answer? && Allowed(w, s)
    ensures Sound(Do(w, s))
  {
    AnswerKeepsResolved(w, s);
  }

  lemma SuccessTookEffect<Op>(w: World<Op>)
    requires Sound(w) && w.client.key.Some? && Applied(w, w.client.key.value)
    ensures TookEffect(w, w.intent)
  {
    var i :| 0 <= i < |w.applied| && w.applied[i].key == w.client.key.value;
    assert w.applied[i] in w.sent;
    assert w.applied[i] == w.sent[|w.sent| - 1];
  }

  lemma AnswerKeepsResolved<Op>(w: World<Op>, s: Step<Op>)
    requires Sound(w) && s.Answer? && Allowed(w, s)
    ensures Resolved(Do(w, s))
  {
    var v := Do(w, s);
    if s.outcome.Success? { SuccessTookEffect(w); }
    assert v.applied == w.applied && v.intent == w.intent;
    forall n ensures TookEffect(v, n) == TookEffect(w, n) {
    }
  }

  lemma StepKeeps<Op>(w: World<Op>, s: Step<Op>)
    requires Sound(w) && Allowed(w, s)
    ensures Sound(Do(w, s))
  {
    match s
    case Call(_, _) => CallKeeps(w, s);
    case Serve(_) => ServeKeeps(w, s);
    case Answer(_, _) => AnswerKeeps(w, s);
  }

  lemma {:induction false} RunKeeps<Op>(w: World<Op>, steps: seq<Step<Op>>)
    requires Sound(w) && Runs(w, steps)
    ensures Sound(After(w, steps))
    decreases |steps|
  {
    if steps != [] {
      StepKeeps(w, steps[0]);
      RunKeeps(Do(w, steps[0]), steps[1..]);
    }
  }

  ghost function EffectsOf<Op>(w: World<Op>, intent: nat): set<nat> {
    set i: nat | i < |w.applied| && w.applied[i].intent == intent
  }

  /** Over any run: an operation takes effect at most once, exactly once if reported successful, and one key never carries
      two operations nor one operation two keys. */
  lemma AtMostOnce<Op>(steps: seq<Step<Op>>, intent: nat)
    requires Runs(Start(), steps)
    ensures var w := After(Start(), steps);
            |EffectsOf(w, intent)| <= 1 && (intent in w.succeeded ==> |EffectsOf(w, intent)| == 1) && Matched(w)
  {
    var w := After(Start(), steps);
    assert Sound<Op>(Start());
    RunKeeps(Start(), steps);
    forall i, j | i in EffectsOf(w, intent) && j in EffectsOf(w, intent) ensures i == j {
      assert w.applied[i] in w.sent && w.applied[j] in w.sent;
    }
    if intent in w.succeeded {
      var i: nat :| i < |w.applied| && w.applied[i].intent == intent;
      assert EffectsOf(w, intent) == {i};
    } else if i :| i in EffectsOf(w, intent) {
      assert EffectsOf(w, intent) == {i};
    } else {
      assert EffectsOf(w, intent) == {};
    }
  }

  /** Whatever run is asked to do, a new operation goes out only when every earlier one has been answered. */
  lemma NoNewOperationWhileUnresolved<Op>(steps: seq<Step<Op>>, call: Step<Op>, n: nat)
    requires Runs(Start(), steps) && call.Call? && Allowed(After(Start(), steps), call)
    ensures var w := After(Start(), steps);
            var v := Do(w, call);
            v.intent != w.intent && 1 <= n <= w.intent ==> n in w.succeeded || n in w.rejected
  {
    assert Sound<Op>(Start());
    RunKeeps(Start(), steps);
  }

  // ---------- exactly when the report is the truth ----------

  /** A transmission reaches the server after its operation has been refused. */
  ghost predicate Late<Op>(w: World<Op>, s: Step<Op>)
    requires Allowed(w, s)
  {
    s.Serve? && w.sent[s.i].intent in w.rejected
  }

  ghost predicate Timely<Op>(w: World<Op>, steps: seq<Step<Op>>)
    requires Runs(w, steps)
    decreases |steps|
  {
    steps != [] ==> !Late(w, steps[0]) && Timely(Do(w, steps[0]), steps[1..])
  }

  ghost predicate RejectedIdle<Op>(w: World<Op>) {
    forall n :: n in w.rejected ==> !TookEffect(w, n)
  }

  lemma RejectedIsUnapplied<Op>(w: World<Op>, i: nat)
    requires Sound(w) && RejectedIdle(w) && i < |w.sent| && w.sent[i].intent in w.rejected
    ensures !Applied(w, w.sent[i].key)
  {
    forall j | 0 <= j < |w.applied| ensures w.applied[j].key != w.sent[i].key {
      assert w.applied[j] in w.sent && !TookEffect(w, w.sent[i].intent);
    }
  }

  /** One kind of step, and no other, gives an effect to a refused operation. */
  lemma StepIdle<Op>(w: World<Op>, s: Step<Op>)
    requires Sound(w) && RejectedIdle(w) && Allowed(w, s)
    ensures RejectedIdle(Do(w, s)) <==> !Late(w, s)
  {
    var v := Do(w, s);
    if Late(w, s) {
      RejectedIsUnapplied(w, s.i);
      assert v.applied[|w.applied|].intent in v.rejected;
      assert TookEffect(v, w.sent[s.i].intent);
    } else {
      forall n, i | n in v.rejected && 0 <= i < |v.applied| ensures v.applied[i].intent != n {
        if i < |w.applied| {
          assert w.applied[i] in w.sent && (n in w.rejected ==> !TookEffect(w, n));
        }
      }
    }
  }

  /** What was refused stays refused, and what took effect stays in effect. */
  lemma {:induction false} EffectsStay<Op>(w: World<Op>, steps: seq<Step<Op>>)
    requires Runs(w, steps) && !RejectedIdle(w)
    ensures !RejectedIdle(After(w, steps))
    decreases |steps|
  {
    if steps != [] {
      var v := Do(w, steps[0]);
      var n :| n in w.rejected && TookEffect(w, n);
      var i :| 0 <= i < |w.applied| && w.applied[i].intent == n;
      assert v.applied[i].intent == n && TookEffect(v, n) && n in v.rejected;
      EffectsStay(v, steps[1..]);
    }
  }

  lemma {:induction false} RunIdle<Op>(w: World<Op>, steps: seq<Step<Op>>)
    requires Sound(w) && RejectedIdle(w) && Runs(w, steps)
    ensures RejectedIdle(After(w, steps)) <==> Timely(w, steps)
    decreases |steps|
  {
    if steps != [] {
      StepIdle(w, steps[0]);
      StepKeeps(w, steps[0]);
      if Late(w, steps[0]) {
        EffectsStay(Do(w, steps[0]), steps[1..]);
      } else {
        RunIdle(Do(w, steps[0]), steps[1..]);
      }
    }
  }

  /** Every answered operation took effect exactly when it was reported successful. */
  ghost predicate Told<Op>(w: World<Op>) {
    forall n :: n in w.succeeded || n in w.rejected ==> (TookEffect(w, n) <==> n in w.succeeded)
  }

  /** After any run the report is the truth if and only if no transmission reached the server after its operation had been
      refused. */
  lemma ReportIsTruth<Op>(steps: seq<Step<Op>>)
    requires Runs(Start(), steps)
    ensures Told(After(Start(), steps)) <==> Timely(Start(), steps)
  {
    assert Sound<Op>(Start()) && RejectedIdle<Op>(Start());
    RunIdle(Start(), steps);
    RunKeeps(Start(), steps);
    ToldMeansIdle(After(Start(), steps));
  }

  lemma ToldMeansIdle<Op>(w: World<Op>)
    requires Resolved(w)
    ensures Told(w) <==> RejectedIdle(w)
  {
    assert forall n :: n in w.rejected ==> n !in w.succeeded;
  }

  lemma Prepend<Op>(w: World<Op>, s: Step<Op>, rest: seq<Step<Op>>)
    requires Allowed(w, s) && Runs(Do(w, s), rest)
    ensures Runs(w, [s] + rest) && After(w, [s] + rest) == After(Do(w, s), rest)
  {
    assert ([s] + rest)[1..] == rest;
  }

  /** With a late delivery the report can be wrong, for any operation: the first transmission is still on its way when a retry
      is refused, and takes effect afterwards. */
  lemma LateDeliveryAfterRejection<Op>(op: Op, a: Key, b: Key) returns (steps: seq<Step<Op>>)
    requires a != b
    ensures Runs(Start(), steps) && 1 in After(Start(), steps).rejected && TookEffect(After(Start(), steps), 1)
  {
    var refuse := Answer(Failed(Response(400, false)), None);
    var sent := Sent(1, op, a);
    var w1 := World(Client(Some(a), false, None, Some(op)), 1, [sent], [], {}, {});
    var w2 := w1.(client := Client(Some(a), true, Some(op), None));
    var w3 := World(Client(Some(a), true, Some(op), Some(op)), 1, [sent, sent], [], {}, {});
    var w4 := w3.(client := Client(None, false, None, None), rejected := {1});
    var w5 := w4.(applied := [sent]);
    assert Do(w4, Serve(0)) == w5 && Do(w3, refuse) == w4;
    assert w5.applied[0].intent == 1;
    Prepend(w4, Serve(0), []);
    Prepend(w3, refuse, [Serve(0)] + []);
    assert Do(w2, Call(op, b)) == w3;
    Prepend(w2, Call(op, b), [refuse] + ([Serve(0)] + []));
    steps := FirstTwo(op, a, [Call(op, b)] + ([refuse] + ([Serve(0)] + [])));
  }

  /** A first attempt that stays unanswered. */
  lemma FirstTwo<Op>(op: Op, a: Key, rest: seq<Step<Op>>) returns (steps: seq<Step<Op>>)
    requires Runs(World(Client(Some(a), true, Some(op), None), 1, [Sent(1, op, a)], [], {}, {}), rest)
    ensures Runs(Start(), steps)
    ensures After(Start(), steps) ==
            After(World(Client(Some(a), true, Some(op), None), 1, [Sent(1, op, a)], [], {}, {}), rest)
  {
    var w1 := World(Client(Some(a), false, None, Some(op)), 1, [Sent(1, op, a)], [], {}, {});
    var lost := Answer(Failed(NoResponse), None);
    Prepend(w1, lost, rest);
    assert Do(Start(), Call(op, a)) == w1;
    Prepend(Start(), Call(op, a), [lost] + rest);
    steps := [Call(op, a)] + ([lost] + rest);
  }
}
