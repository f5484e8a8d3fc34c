/** StationPolicyEnforcer in production: the cached view of what Windows enforces.

    Application codes are compared after case folding, so a code below is already folded.
    Signature, hash and publisher checks are inputs (`valid`); the policy script is an input too,
    in the form of an OsResult that says how far it got. */
module PolicyEnforcement {
  import opened Options

  datatype App = App(code: string, path: string, helper: bool)
  datatype Policy = Policy(version: int, apps: seq<App>)

  /** How ApplyOsPolicy ends.
      - ListsNotWritten: one of the list files could not be written; the script was never started;
      - ScriptFailed: the script did not start, timed out, failed or was not verified afterwards. Windows
        then holds some mixture of the old and the new list: those of their entries that are in `keeps`.
        `clears` says whether the failing line itself reset appliedActive;
      - Applied: the script succeeded and its verification file confirms it. */
  datatype OsResult = ListsNotWritten | ScriptFailed(keeps: set<string>, clears: bool) | Applied

  /** `os` is what Windows really allows; every other field belongs to the enforcer. */
  datatype Enforcer = Enforcer(
    allowed: map<string, App>, version: int, active: bool, applied: Option<bool>, verified: bool, os: set<string>)

  datatype Outcome = Outcome(state: Enforcer, ok: bool)

  function Paths(allowed: map<string, App>): set<string> {
    set code | code in allowed :: allowed[code].path
  }

  /** The list that ApplyOsPolicy hands to the script. */
  function Target(e: Enforcer): set<string> {
    if e.active then Paths(e.allowed) else {}
  }

  function ApplyOs(e: Enforcer, r: OsResult): Outcome {
    match r
    case ListsNotWritten => Outcome(e, false)
    case ScriptFailed(keeps, clears) =>
      Outcome(e.(verified := false, os := keeps * (e.os + Target(e)), applied := if clears then None else e.applied), false)
    case Applied => Outcome(e.(verified := true, os := Target(e), applied := Some(e.active)), true)
  }

  function SessionActive(e: Enforcer, value: bool, valid: bool, r: OsResult): Outcome {
    if e.active == value && e.applied == Some(value) then Outcome(e, true)
    else if value && !valid then Outcome(e, false)
    else
      var o := ApplyOs(e.(active := value), r);
      if o.ok then o else Outcome(o.state.(active := false, applied := None, verified := false), false)
  }

  function Reapplied(e: Enforcer, r: OsResult): Outcome {
    SessionActive(e.(applied := None), false, true, r)
  }

  predicate DistinctCodes(apps: seq<App>) {
    forall i, j :: 0 <= i < j < |apps| ==> apps[i].code != apps[j].code
  }

  function Table(apps: seq<App>): map<string, App> {
    if apps == [] then map[] else Table(apps[..|apps| - 1])[apps[|apps| - 1].code := apps[|apps| - 1]]
  }

  function PolicyUpdated(e: Enforcer, p: Policy, valid: bool, r: OsResult, saved: bool): Outcome {
    if p.version < e.version then Outcome(e, false)
    else if p.version == e.version then Outcome(e, true)
    else if !valid then Outcome(e, false)
    else if !DistinctCodes(p.apps) then Outcome(e.(applied := None), false)
    else
      var o := ApplyOs(e.(allowed := Table(p.apps)), r);
      if o.ok && saved then Outcome(o.state.(version := p.version), true)
      else Outcome(o.state.(allowed := e.allowed, applied := None), false)
  }

  function IdentityChecked(e: Enforcer, running: bool): Outcome {
    if !e.verified || running then Outcome(e, true)
    else Outcome(e.(verified := false, applied := None), false)
  }

  /** Every call the runtime makes, with the answers of its surroundings. */
  datatype Call =
    | UpdateCall(p: Policy, valid: bool, r: OsResult, saved: bool)
    | ActiveCall(value: bool, valid: bool, r: OsResult)
    | ReapplyCall(r: OsResult)
    | IdentityCall(running: bool)

  function Called(e: Enforcer, c: Call): Outcome {
    match c
    case UpdateCall(p, valid, r, saved) => PolicyUpdated(e, p, valid, r, saved)
    case ActiveCall(value, valid, r) => SessionActive(e, value, valid, r)
    case ReapplyCall(r) => Reapplied(e, r)
    case IdentityCall(running) => IdentityChecked(e, running)
  }

  /** The enforcer of a new process: nothing is known about what Windows holds. */
  function Fresh(os: set<string>): Enforcer { Enforcer(map[], 0, false, None, false, os) }

  /** What the cache must mean while osSync is free. */
  ghost predicate Coherent(e: Enforcer) {
    && (e.applied.Some? ==> e.verified && e.applied.value == e.active && e.os == Target(e))
    && (e.verified && !e.active ==> e.os == {})
  }

  ghost function AfterCalls(e: Enforcer, calls: seq<Call>): Enforcer
    decreases |calls|
  {
    if calls == [] then e else AfterCalls(Called(e, calls[0]).state, calls[1..])
  }

  lemma CallKeepsCoherence(e: Enforcer, c: Call)
    requires Coherent(e)
    ensures Coherent(Called(e, c).state)
    ensures e.version <= Called(e, c).state.version
  {
  }

  /** Cache coherence for every history of calls and failures of a process: a cached value is what the enforcer
      wants and what Windows really holds, and the policy version never goes back. */
  lemma {:induction false} CacheCoherence(os: set<string>, calls: seq<Call>)
    ensures Coherent(AfterCalls(Fresh(os), calls))
  {
    HistoryKeepsCoherence(Fresh(os), calls);
  }

  lemma {:induction false} HistoryKeepsCoherence(e: Enforcer, calls: seq<Call>)
    requires Coherent(e)
    ensures Coherent(AfterCalls(e, calls))
    ensures e.version <= AfterCalls(e, calls).version
    decreases |calls|
  {
    if calls != [] {
      CallKeepsCoherence(e, calls[0]);
      HistoryKeepsCoherence(Called(e, calls[0]).state, calls[1..]);
    }
  }

  /** The shortcut of SetSessionActive is taken exactly when a real, successful apply would change nothing. */
  lemma ShortcutIsARealApply(e: Enforcer, value: bool)
    requires Coherent(e)
    ensures e.active == value && e.applied == Some(value)
       <==> ApplyOs(e.(active := value), Applied) == Outcome(e, true)
  {
  }

  /** After any history, SetSessionActive succeeds exactly when the cache already holds the value, or the script does its work
      and, for an activation, the applications are valid; Windows is then left with exactly the wanted programs. */
  lemma ActiveMeansListed(e: Enforcer, value: bool, valid: bool, r: OsResult)
    requires Coherent(e)
    ensures SessionActive(e, value, valid, r).ok <==>
              (e.active == value && e.applied == Some(value)) || ((value ==> valid) && r == OsResult.Applied)
    ensures SessionActive(e, value, valid, r).ok ==>
              var f := SessionActive(e, value, valid, r).state;
              && f.active == value && f.allowed == e.allowed && f.version == e.version
              && forall p :: p in f.os <==> value && exists code :: code in e.allowed && e.allowed[code].path == p
    ensures !SessionActive(e, value, valid, r).ok ==> !SessionActive(e, value, valid, r).state.active || (value && !valid)
  {
  }

  /** The table of a policy without duplicate codes: each application under its code, and nothing else. */
  lemma {:induction false} TableHolds(apps: seq<App>)
    requires DistinctCodes(apps)
    ensures forall i :: 0 <= i < |apps| ==> apps[i].code in Table(apps) && Table(apps)[apps[i].code] == apps[i]
    ensures forall code :: code in Table(apps) ==> exists i :: 0 <= i < |apps| && apps[i].code == code
  {
    if apps != [] {
      var front, last := apps[..|apps| - 1], apps[|apps| - 1];
      TableHolds(front);
      forall i | 0 <= i < |apps| ensures apps[i].code in Table(apps) && Table(apps)[apps[i].code] == apps[i] {
        if i < |front| { assert front[i] == apps[i] && apps[i].code != last.code; }
      }
      forall code | code in Table(apps) ensures exists i :: 0 <= i < |apps| && apps[i].code == code {
        if code == last.code {
          assert apps[|apps| - 1].code == code;
        } else {
          assert code in Table(front);
          var i :| 0 <= i < |front| && front[i].code == code;
          assert apps[i].code == code;
        }
      }
    }
  }

  /** A policy update succeeds exactly when its version is the current one, or newer with valid applications under distinct codes,
      a successful script and a written file. A newer policy then replaces version and applications, and Windows holds its
      programs while a session is active. */
  lemma UpdateOutcome(e: Enforcer, p: Policy, valid: bool, r: OsResult, saved: bool)
    requires Coherent(e)
    ensures PolicyUpdated(e, p, valid, r, saved).ok <==>
              p.version == e.version ||
              (e.version < p.version && valid && DistinctCodes(p.apps) && r == OsResult.Applied && saved)
    ensures p.version <= e.version ==> PolicyUpdated(e, p, valid, r, saved).state == e
    ensures PolicyUpdated(e, p, valid, r, saved).ok && e.version < p.version ==>
              var f := PolicyUpdated(e, p, valid, r, saved).state;
              && f.version == p.version && f.active == e.active
              && (forall i :: 0 <= i < |p.apps| ==> p.apps[i].code in f.allowed && f.allowed[p.apps[i].code] == p.apps[i])
              && (forall code :: code in f.allowed ==> exists i :: 0 <= i < |p.apps| && p.apps[i].code == code)
              && (forall path :: path in f.os <==> e.active && Offers(p, path))
  {
    if DistinctCodes(p.apps) {
      TableHolds(p.apps);
      PathsOfTable(p);
    }
  }

  ghost predicate Offers(p: Policy, path: string) {
    exists i :: 0 <= i < |p.apps| && p.apps[i].path == path
  }

  lemma PathsOfTable(p: Policy)
    requires DistinctCodes(p.apps)
    ensures forall path :: path in Paths(Table(p.apps)) <==> Offers(p, path)
  {
    TableHolds(p.apps);
    forall path ensures path in Paths(Table(p.apps)) <==> Offers(p, path) {
      if Offers(p, path) {
        var i :| 0 <= i < |p.apps| && p.apps[i].path == path;
        assert Table(p.apps)[p.apps[i].code].path == path;
      }
      if path in Paths(Table(p.apps)) {
        var code :| code in Table(p.apps) && Table(p.apps)[code].path == path;
        var i :| 0 <= i < |p.apps| && p.apps[i].code == code;
        assert p.apps[i].path == path;
      }
    }
  }

  /** The identity check of a verified enforcer fails exactly when the service does not run, and then nothing is trusted. */
  lemma IdentityOutcome(e: Enforcer, running: bool)
    ensures IdentityChecked(e, running).ok <==> running || !e.verified
    ensures IdentityChecked(e, running).ok ==> IdentityChecked(e, running).state == e
    ensures !IdentityChecked(e, running).ok ==> IdentityChecked(e, running).state == e.(verified := false, applied := None)
  {
  }

  /** A failed policy update leaves the allowed set, the version and the session flag as they were, and unless it was
      refused before touching anything, the next SetSessionActive(v) runs the script again for either v. */
  lemma FailedUpdateRollsBack(e: Enforcer, p: Policy, valid: bool, r: OsResult, saved: bool, v: bool, next: OsResult)
    requires Coherent(e)
    requires !PolicyUpdated(e, p, valid, r, saved).ok
    ensures var f := PolicyUpdated(e, p, valid, r, saved).state;
            f.allowed == e.allowed && f.version == e.version && f.active == e.active &&
            (f == e || SessionActive(f, v, true, next).ok == next.Applied?)
  {
  }

  /** A policy update that slips in between two enforcer calls of a critical section cannot open Windows: it never changes the
      session flag, and while that is off it leaves a closed list closed. */
  lemma UpdateOpensNothing(e: Enforcer, p: Policy, valid: bool, r: OsResult, saved: bool)
    requires Coherent(e)
    ensures var f := PolicyUpdated(e, p, valid, r, saved).state;
            Coherent(f) && f.active == e.active && (!e.active && e.os == {} ==> f.os == {})
  {
  }

  /** The enforcer object. */
  class StationPolicyEnforcer {
    var allowed: map<string, App>
    var version: int
    var active: bool
    var applied: Option<bool>
    var verified: bool
    /** What Windows holds; written by the policy script only. */
    var os: set<string>

    function View(): Enforcer reads this { Enforcer(allowed, version, active, applied, verified, os) }

    constructor (held: set<string>)
      ensures View() == Fresh(held)
    {
      allowed, version, active, applied, verified, os := map[], 0, false, None, false, held;
    }

    method ApplyOsPolicy(r: OsResult) returns (ok: bool)
      modifies this`applied, this`verified, this`os
      ensures Outcome(View(), ok) == ApplyOs(old(View()), r)
    {
      if r.ListsNotWritten? { return false; }
      var paths := if active then Paths(allowed) else {};
      verified := false;
      if r.ScriptFailed? {
        os := r.keeps * (os + paths);
        if r.clears { applied := None; }
        return false;
      }
      os := paths;
      verified := true;
      applied := Some(active);
      return true;
    }

    method SetSessionActive(value: bool, valid: bool, r: OsResult) returns (ok: bool)
      modifies this`active, this`applied, this`verified, this`os
      ensures Outcome(View(), ok) == SessionActive(old(View()), value, valid, r)
    {
      if active == value && applied == Some(value) { return true; }
      if value && !valid { return false; }
      active := value;
      ok := ApplyOsPolicy(r);
      if !ok {
        active := false;
        applied := None;
        verified := false;
      }
    }

    method ReapplyLocked(r: OsResult) returns (ok: bool)
      modifies this`active, this`applied, this`verified, this`os
      ensures Outcome(View(), ok) == Reapplied(old(View()), r)
    {
      applied := None;
      ok := SetSessionActive(false, true, r);
    }

    method CheckApplicationIdentity(running: bool) returns (ok: bool)
      modifies this`applied, this`verified
      ensures Outcome(View(), ok) == IdentityChecked(old(View()), running)
    {
      if !verified || running { return true; }
      verified := false;
      applied := None;
      return false;
    }

    /** ApplyAsync: the dictionary is cleared and refilled in place, and restored when anything fails. */
    method ApplyPolicy(p: Policy, valid: bool, r: OsResult, saved: bool) returns (ok: bool)
      modifies this
      ensures Outcome(View(), ok) == PolicyUpdated(old(View()), p, valid, r, saved)
    {
      if p.version < version { return false; }
      if p.version == version { return true; }
      if !valid { return false; }
      var previous := allowed;
      ok := Refill(p.apps);
      if ok { ok := ApplyOsPolicy(r); }
      if ok && saved {
        version := p.version;
      } else {
        ok := false;
        allowed := previous;
        applied := None;
      }
    }

    /** Dictionary.Add throws on a code that is already present. */
    method Refill(apps: seq<App>) returns (ok: bool)
      modifies this`allowed
      ensures ok == DistinctCodes(apps)
      ensures ok ==> allowed == Table(apps)
    {
      allowed := map[];
      for i := 0 to |apps|
        invariant DistinctCodes(apps[..i])
        invariant allowed == Table(apps[..i])
        invariant forall code :: code in allowed <==> exists k :: 0 <= k < i && apps[k].code == code
      {
        if apps[i].code in allowed {
          return false;
        }
        assert apps[..i + 1][..i] == apps[..i];
        allowed := allowed[apps[i].code := apps[i]];
      }
      assert apps[..|apps|] == apps;
      return true;
    }

    /** Launch never hands out a program that Windows would refuse: in every coherent state the path it
        returns is on the list Windows holds. */
    method Launch(code: string, valid: bool) returns (path: Option<string>)
      requires Coherent(View())
      ensures path.Some? <==> active && applied == Some(true) && valid && code in allowed && !allowed[code].helper
      ensures path.Some? ==> path.value == allowed[code].path && path.value in os
    {
      if !active || applied != Some(true) || code !in allowed || allowed[code].helper || !valid { return None; }
      assert allowed[code].path in Paths(allowed);
      return Some(allowed[code].path);
    }
  }
}
