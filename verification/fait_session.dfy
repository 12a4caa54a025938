/**
 * The analysis session `BrepairFaitManager` keeps with the FAIT server, with the
 * message transport taken out: replies and notifications are inputs, and each
 * step of the manager is a pure function of its state and those inputs.
 */
module FaitSession {
  import opened Wrappers
  import opened Strings

  // ---------------------------------------------------------------------------
  // State
  // ---------------------------------------------------------------------------

  /** `AnalysisState`: `NONE`, `PENDING`, `READY`. */
  datatype AnalysisState = NoAnalysis | Pending | Ready

  /** An `ANALYSIS` notification: its `STARTED` and `ABORTED` flags and the message text. */
  datatype Analysis = Analysis(started: bool, aborted: bool, text: string)

  /** A notification that reports a finished analysis rather than one starting or aborted. */
  predicate Finished(a: Analysis) {
    !a.started && !a.aborted
  }

  /**
   * The manager's fields: `is_running` (unknown until the launcher reports),
   * `is_started`, `fait_session`, `last_analysis` and `analysis_state`.
   */
  datatype Manager = Manager(
    running: Option<bool>,
    started: bool,
    session: Option<string>,
    lastAnalysis: Option<Analysis>,
    state: AnalysisState)

  /**
   * What every step keeps: a session id is held, a `READY` manager holds a payload,
   * and the payload held is always a finished analysis.
   */
  predicate Valid(m: Manager) {
    && m.session.Some?
    && (m.state == Ready ==> m.lastAnalysis.Some?)
    && (m.lastAnalysis.Some? ==> Finished(m.lastAnalysis.value))
  }

  // ---------------------------------------------------------------------------
  // Construction and the session id
  // ---------------------------------------------------------------------------

  const MinJavaInt: int := -0x8000_0000
  const TwoTo32: int := 0x1_0000_0000

  /** The 32-bit two's-complement value of `x`. */
  function Wrap32(x: int): (r: int)
    ensures MinJavaInt <= r <= MaxJavaInt
    ensures (r - x) % TwoTo32 == 0
  {
    (x - MinJavaInt) % TwoTo32 + MinJavaInt
  }

  /** `AtomicInteger.incrementAndGet` on the shared id counter: wraps from the largest `int` to the smallest. */
  function IncrementAndGet(c: int): (r: int)
    requires MinJavaInt <= c <= MaxJavaInt
    ensures r == Wrap32(c + 1)
  {
    if c == MaxJavaInt then MinJavaInt else c + 1
  }

  /** The session id the constructor makes: `BREPAIR_`, the process id, `_`, the counter. */
  function SessionName(pid: string, n: int): string {
    "BREPAIR_" + pid + "_" + IntToString(n)
  }

  /** For one process, the session id determines the counter value it was made from. */
  lemma SessionNameInjective(pid: string, a: int, b: int)
    ensures SessionName(pid, a) == SessionName(pid, b) <==> a == b
  {
    var p := "BREPAIR_" + pid + "_";
    assert SessionName(pid, a)[|p|..] == IntToString(a);
    assert SessionName(pid, b)[|p|..] == IntToString(b);
    IntToStringRoundTrip(a, "");
    IntToStringRoundTrip(b, "");
    assert IntToString(a) + "" == IntToString(a) && IntToString(b) + "" == IntToString(b);
  }

  /** Fewer than 2^32 managers made in turn from one counter get pairwise distinct session ids. */
  lemma SessionNamesDistinct(pid: string, c: int, i: int, j: int)
    requires 0 <= i < j < TwoTo32
    ensures SessionName(pid, Wrap32(c + i)) != SessionName(pid, Wrap32(c + j))
  {
    WrapWindow(c + i, c + j);
    SessionNameInjective(pid, Wrap32(c + i), Wrap32(c + j));
  }

  /** Moving less than 2^32 forward moves the wrapped value by the same amount, or by that amount less 2^32. */
  lemma WrapWindow(x: int, y: int)
    requires x < y < x + TwoTo32
    ensures Wrap32(y) - Wrap32(x) == y - x || Wrap32(y) - Wrap32(x) == y - x - TwoTo32
    ensures Wrap32(x) != Wrap32(y)
  {
    var a := x - MinJavaInt;
    var q, w := a / TwoTo32, a % TwoTo32;
    assert a == q * TwoTo32 + w;
    var b := y - MinJavaInt;
    if w + (y - x) < TwoTo32 {
      assert b == q * TwoTo32 + (w + (y - x));
    } else {
      assert b == (q + 1) * TwoTo32 + (w + (y - x) - TwoTo32);
    }
  }

  /**
   * The constructor: nothing known about the server, not started, no analysis, and
   * a fresh session id from the incremented shared counter, which is returned.
   */
  function NewManager(pid: string, counter: int): (r: (Manager, int))
    requires MinJavaInt <= counter <= MaxJavaInt
    ensures r.1 == Wrap32(counter + 1)
    ensures r.0.session == Some(SessionName(pid, r.1))
    ensures r.0.running.None? && !r.0.started && r.0.lastAnalysis.None? && r.0.state == NoAnalysis
    ensures Valid(r.0)
  {
    var n := IncrementAndGet(counter);
    (Manager(None, false, Some(SessionName(pid, n)), None, NoAnalysis), n)
  }

  // ---------------------------------------------------------------------------
  // Notifications
  // ---------------------------------------------------------------------------

  /**
   * `handleAnalysis`: a starting or aborted analysis makes the state `PENDING` and
   * drops the payload; a finished one makes it `READY` and keeps the notification.
   */
  function HandleAnalysis(m: Manager, a: Analysis): (r: Manager)
    ensures r.state == Ready <==> Finished(a)
    ensures r.state != NoAnalysis
    ensures r.lastAnalysis.Some? <==> r.state == Ready
    ensures r.lastAnalysis.Some? ==> r.lastAnalysis.value == a
    ensures r.(state := m.state, lastAnalysis := m.lastAnalysis) == m
    ensures Valid(m) ==> Valid(r)
  {
    if a.started || a.aborted then m.(state := Pending, lastAnalysis := None)
    else m.(state := Ready, lastAnalysis := Some(a))
  }

  /**
   * `UpdateHandler.receive`: a notification whose `ID` is missing or differs from the
   * held session id, or arriving while none is held, is dropped; of the rest only
   * `ANALYSIS` changes anything (`ERROR` throws and is caught, others are logged).
   */
  function Receive(m: Manager, kind: Option<string>, id: Option<string>, a: Analysis): (r: Manager)
    ensures m.session.None? || id != m.session ==> r == m
    ensures kind != Some("ANALYSIS") ==> r == m
    ensures r.(state := m.state, lastAnalysis := m.lastAnalysis) == m
    ensures r != m ==> r.state != NoAnalysis
    ensures Valid(m) ==> Valid(r)
  {
    if m.session.None? || id != m.session then m
    else if kind == Some("ANALYSIS") then HandleAnalysis(m, a)
    else m
  }

  // ---------------------------------------------------------------------------
  // waitForAnalysis
  // ---------------------------------------------------------------------------

  /** One pass of `waitForAnalysis`' loop: return null, return the payload, or wait. */
  datatype WaitStep = ReturnNull | ReturnPayload(payload: Option<Analysis>) | KeepWaiting

  function WaitDecision(m: Manager): (r: WaitStep)
    ensures r == KeepWaiting <==> m.running == Some(true) && m.state == Pending
    ensures r.ReturnPayload? <==> m.running == Some(true) && m.state == Ready
    ensures r.ReturnPayload? ==> r.payload == m.lastAnalysis
  {
    if m.running != Some(true) then ReturnNull
    else
      match m.state
      case NoAnalysis => ReturnNull
      case Pending => KeepWaiting
      case Ready => ReturnPayload(m.lastAnalysis)
  }

  /** On a valid manager a returned payload is never null and always a finished analysis. */
  lemma WaitReturnsFinished(m: Manager)
    requires Valid(m)
    ensures WaitDecision(m).ReturnPayload? ==> WaitDecision(m).payload.Some? && Finished(WaitDecision(m).payload.value)
  {
  }

  /**
   * A waiting manager stops waiting on the finished analysis of its own session,
   * returning exactly that notification, and keeps waiting through a starting or
   * aborted one.
   */
  lemma NotificationEndsWait(m: Manager, id: string, a: Analysis)
    requires WaitDecision(m) == KeepWaiting && m.session == Some(id)
    ensures WaitDecision(Receive(m, Some("ANALYSIS"), Some(id), a)) ==
      if Finished(a) then ReturnPayload(Some(a)) else KeepWaiting
  {
  }

  /** A notification for another session leaves the decision as it was. */
  lemma StaleNotificationKeepsWaiting(m: Manager, kind: Option<string>, id: Option<string>, a: Analysis)
    requires id != m.session
    ensures WaitDecision(Receive(m, kind, id, a)) == WaitDecision(m)
  {
  }

  // ---------------------------------------------------------------------------
  // waitForSetup
  // ---------------------------------------------------------------------------

  /** The commands of the setup handshake, in the order they are sent. */
  datatype Command = Begin | AddFile | Analyze

  /** A reply: whether it is a `RESULT` element, and the `ID` of its `SESSION` child (a null reply is not a result). */
  datatype Reply = Reply(isResult: bool, sessionId: Option<string>)

  /** The whole handshake: `ADDFILE` only when there are files to add. */
  function Handshake(hasFiles: bool): seq<Command> {
    [Begin] + (if hasFiles then [AddFile] else []) + [Analyze]
  }

  function ReplyTo(c: Command, begin: Reply, addFile: Reply, analyze: Reply): Reply {
    match c
    case Begin => begin
    case AddFile => addFile
    case Analyze => analyze
  }

  /** Still blocked until the launcher reports, or done with the new state, the verdict and the commands sent. */
  datatype SetupOutcome = AwaitingLaunch | SetupDone(m: Manager, ok: bool, sent: seq<Command>)

  /**
   * `waitForSetup` after the launcher has reported, up to the final wait for the
   * analysis (whose value it ignores): `BEGIN`, then `ADDFILE` when there are
   * files, then `ANALYZE`; the first reply that is not a `RESULT` ends it with the
   * server marked not running.
   */
  function WaitForSetup(m: Manager, hasFiles: bool, begin: Reply, addFile: Reply, analyze: Reply): (r: SetupOutcome)
    ensures r.AwaitingLaunch? <==> m.running.None?
    ensures r.SetupDone? ==> (r.ok <==> r.m.running == Some(true))
    ensures r.SetupDone? ==> r.m.started == m.started && r.m.lastAnalysis == m.lastAnalysis
    ensures r.SetupDone? ==> (Valid(m) ==> Valid(r.m))
  {
    if m.running.None? then AwaitingLaunch
    else if !m.running.value then SetupDone(m, false, [])
    else if !begin.isResult then SetupDone(m.(running := Some(false)), false, [Begin])
    else
      var m1 := if begin.sessionId.Some? then m.(session := begin.sessionId) else m;
      var files := if hasFiles then [AddFile] else [];
      if hasFiles && !addFile.isResult then SetupDone(m1.(running := Some(false)), false, [Begin, AddFile])
      else
        var m2 := m1.(state := Pending);
        if !analyze.isResult then SetupDone(m2.(state := NoAnalysis, running := Some(false)), false, [Begin] + files + [Analyze])
        else SetupDone(m2, true, [Begin] + files + [Analyze])
  }

  /**
   * The handshake, as a whole: the commands go out in handshake order and stop at
   * the first failure; setup succeeds exactly when the server was running and every
   * command sent got a `RESULT`; then the analysis is pending.
   */
  lemma SetupOutcomes(m: Manager, hasFiles: bool, begin: Reply, addFile: Reply, analyze: Reply)
    requires m.running.Some?
    ensures var r := WaitForSetup(m, hasFiles, begin, addFile, analyze);
      && |r.sent| <= |Handshake(hasFiles)| && r.sent == Handshake(hasFiles)[..|r.sent|]
      && (|r.sent| > 0 <==> m.running == Some(true))
      && (r.ok <==> m.running == Some(true) && forall i :: 0 <= i < |r.sent| ==> ReplyTo(r.sent[i], begin, addFile, analyze).isResult)
      && (r.ok ==> r.sent == Handshake(hasFiles) && r.m.state == Pending)
      && (!r.ok && |r.sent| > 0 ==> !ReplyTo(r.sent[|r.sent| - 1], begin, addFile, analyze).isResult)
  {
    var r := WaitForSetup(m, hasFiles, begin, addFile, analyze);
    var h := Handshake(hasFiles);
    if hasFiles {
      assert h == [Begin, AddFile, Analyze];
      assert h[..1] == [Begin] && h[..2] == [Begin, AddFile] && h[..0] == [];
    } else {
      assert h == [Begin, Analyze];
      assert h[..1] == [Begin] && h[..0] == [];
    }
    if r.ok {
      forall i | 0 <= i < |r.sent|
        ensures ReplyTo(r.sent[i], begin, addFile, analyze).isResult
      {
        assert r.sent[i] == Begin || r.sent[i] == AddFile || r.sent[i] == Analyze;
      }
    } else if |r.sent| > 0 {
      assert !ReplyTo(r.sent[|r.sent| - 1], begin, addFile, analyze).isResult;
    }
  }

  /**
   * The session id is replaced only by a non-null id in a `RESULT` reply to `BEGIN`;
   * the state moves only to `PENDING` (on success) or back to `NONE` (when `ANALYZE`
   * fails).
   */
  lemma SetupSessionAndState(m: Manager, hasFiles: bool, begin: Reply, addFile: Reply, analyze: Reply)
    requires m.running.Some?
    ensures var r := WaitForSetup(m, hasFiles, begin, addFile, analyze);
      && r.m.session == (if m.running == Some(true) && begin.isResult && begin.sessionId.Some? then begin.sessionId else m.session)
      && r.m.state == (if r.ok then Pending else if Analyze in r.sent then NoAnalysis else m.state)
  {
  }

  // ---------------------------------------------------------------------------
  // The launcher: startFait
  // ---------------------------------------------------------------------------

  /** The number of times the launcher pings before giving up. */
  const MaxAttempts: nat := 100

  /**
   * What the launcher observes: whether the FAIT jar exists, which pings get an
   * answer, whether starting the process fails, and at which attempts the started
   * process is found to have exited.
   */
  datatype Probe = Probe(jarFound: bool, answered: nat -> bool, spawnFails: bool, exited: nat -> bool)

  /** What the launcher does, in order: ping at attempt `attempt`, or start the server process. */
  datatype Event = Ping(attempt: nat) | Spawn

  /** An unanswered attempt `k` ends the loop: the process could not be started, or it has exited. */
  predicate StopsAfter(p: Probe, k: nat) {
    (k == 0 && p.spawnFails) || (k > 0 && p.exited(k))
  }

  /** Attempt `j` is made when starting at attempt `i`: every attempt in between went unanswered without ending the loop. */
  predicate Reaches(p: Probe, i: nat, j: nat) {
    i <= j < MaxAttempts && forall k :: i <= k < j ==> !p.answered(k) && !StopsAfter(p, k)
  }

  /** The loop from attempt `i` on: what it does, and whether a ping was answered. */
  function Attempts(p: Probe, i: nat): (r: (seq<Event>, bool))
    requires i <= MaxAttempts
    decreases MaxAttempts - i
  {
    if i == MaxAttempts then ([], false)
    else if p.answered(i) then ([Ping(i)], true)
    else
      var spawn := if i == 0 then [Spawn] else [];
      if StopsAfter(p, i) then ([Ping(i)] + spawn, false)
      else
        var rest := Attempts(p, i + 1);
        ([Ping(i)] + spawn + rest.0, rest.1)
  }

  /** The start event that follows the first ping, and nothing after later ones. */
  function SpawnAt(i: nat): seq<Event> {
    if i == 0 then [Spawn] else []
  }

  /** An unanswered attempt that does not end the loop hands on to the next one. */
  lemma AttemptsStep(p: Probe, i: nat)
    requires i < MaxAttempts && !p.answered(i) && !StopsAfter(p, i)
    ensures Attempts(p, i).0 == [Ping(i)] + (SpawnAt(i) + Attempts(p, i + 1).0)
    ensures Attempts(p, i).1 == Attempts(p, i + 1).1
  {
    assert [Ping(i)] + SpawnAt(i) + Attempts(p, i + 1).0 == [Ping(i)] + (SpawnAt(i) + Attempts(p, i + 1).0);
  }

  /** An answered attempt, or one that ends the loop, is the last. */
  lemma AttemptsLast(p: Probe, i: nat)
    requires i < MaxAttempts && (p.answered(i) || StopsAfter(p, i))
    ensures Attempts(p, i) == if p.answered(i) then ([Ping(i)], true) else ([Ping(i)] + SpawnAt(i), false)
  {
  }

  /** Every attempt pinged from attempt `i` on was reached, and the first event is the ping of attempt `i`. */
  predicate PingsReached(p: Probe, i: nat, events: seq<Event>) {
    && (|events| > 0 ==> events[0] == Ping(i))
    && forall k :: 0 <= k < |events| && events[k].Ping? ==> Reaches(p, i, events[k].attempt)
  }

  /** Attempts are pinged in increasing order. */
  predicate PingsIncreasing(events: seq<Event>) {
    forall k, l :: 0 <= k < l < |events| && events[k].Ping? && events[l].Ping? ==> events[k].attempt < events[l].attempt
  }

  /** The process is started only right after the ping of attempt 0. */
  predicate SpawnFirst(events: seq<Event>) {
    forall k :: 0 <= k < |events| && events[k].Spawn? ==> k == 1 && events[0] == Ping(0)
  }

  lemma {:induction false} AttemptsReached(p: Probe, i: nat)
    requires i <= MaxAttempts
    ensures PingsReached(p, i, Attempts(p, i).0)
    ensures |Attempts(p, i).0| > 0 <==> i < MaxAttempts
    decreases MaxAttempts - i
  {
    if i < MaxAttempts && !p.answered(i) && !StopsAfter(p, i) {
      AttemptsReached(p, i + 1);
      AttemptsStep(p, i);
      var rest := Attempts(p, i + 1).0;
      var events := Attempts(p, i).0;
      var n := 1 + |SpawnAt(i)|;
      forall k | 0 <= k < |events| && events[k].Ping?
        ensures Reaches(p, i, events[k].attempt)
      {
        if k >= n {
          assert events[k] == rest[k - n];
        }
      }
    }
  }

  lemma {:induction false} AttemptsIncreasing(p: Probe, i: nat)
    requires i <= MaxAttempts
    ensures PingsIncreasing(Attempts(p, i).0)
    decreases MaxAttempts - i
  {
    if i < MaxAttempts && !p.answered(i) && !StopsAfter(p, i) {
      AttemptsIncreasing(p, i + 1);
      AttemptsReached(p, i + 1);
      AttemptsStep(p, i);
      var rest := Attempts(p, i + 1).0;
      var events := Attempts(p, i).0;
      var n := 1 + |SpawnAt(i)|;
      forall k, l | 0 <= k < l < |events| && events[k].Ping? && events[l].Ping?
        ensures events[k].attempt < events[l].attempt
      {
        assert l >= n;
        assert events[l] == rest[l - n];
        if k >= n {
          assert events[k] == rest[k - n];
        }
      }
    }
  }

  lemma {:induction false} AttemptsSpawnFirst(p: Probe, i: nat)
    requires i <= MaxAttempts
    ensures SpawnFirst(Attempts(p, i).0)
    ensures i > 0 ==> forall k :: 0 <= k < |Attempts(p, i).0| ==> Attempts(p, i).0[k].Ping?
    decreases MaxAttempts - i
  {
    if i < MaxAttempts && !p.answered(i) && !StopsAfter(p, i) {
      AttemptsSpawnFirst(p, i + 1);
      AttemptsStep(p, i);
      var rest := Attempts(p, i + 1).0;
      var events := Attempts(p, i).0;
      var n := 1 + |SpawnAt(i)|;
      forall k | 0 <= k < |events| && k >= n
        ensures events[k].Ping?
      {
        assert events[k] == rest[k - n];
      }
    }
  }

  /** From attempt `i`, the loop reports success exactly when some attempt it reaches is answered. */
  lemma {:induction false} AttemptsAnswered(p: Probe, i: nat)
    requires i <= MaxAttempts
    ensures Attempts(p, i).1 <==> exists j :: Reaches(p, i, j) && p.answered(j)
    decreases MaxAttempts - i
  {
    if i < MaxAttempts && !p.answered(i) && !StopsAfter(p, i) {
      AttemptsAnswered(p, i + 1);
      AttemptsStep(p, i);
      if exists j :: Reaches(p, i + 1, j) && p.answered(j) {
        var j :| Reaches(p, i + 1, j) && p.answered(j);
        assert Reaches(p, i, j);
      }
      if exists j :: Reaches(p, i, j) && p.answered(j) {
        var j :| Reaches(p, i, j) && p.answered(j);
        assert Reaches(p, i + 1, j);
      }
    } else if i < MaxAttempts && p.answered(i) {
      assert Reaches(p, i, i);
    } else if i < MaxAttempts {
      forall j | Reaches(p, i, j)
        ensures !p.answered(j)
      {
        assert j == i;
      }
    }
  }

  /**
   * One pass of the retry loop: ping; if unanswered, start the server on the first
   * attempt (giving up if that fails), or give up if the started server has exited.
   */
  method OneAttempt(p: Probe, i: nat) returns (step: seq<Event>, answered: bool, stop: bool)
    requires i < MaxAttempts
    ensures answered == p.answered(i)
    ensures stop <==> answered || StopsAfter(p, i)
    ensures step == if answered then [Ping(i)] else [Ping(i)] + SpawnAt(i)
  {
    step := [Ping(i)];
    answered := p.answered(i);
    stop := answered;
    if !answered {
      if i == 0 {
        step := step + [Spawn];
        stop := p.spawnFails;
      } else {
        stop := p.exited(i);
      }
    }
  }

  /** The loop's invariant: the events so far, followed by what the loop does from attempt `i`, are the whole run. */
  predicate SoFar(p: Probe, i: nat, events: seq<Event>)
    requires i <= MaxAttempts
  {
    events + Attempts(p, i).0 == Attempts(p, 0).0 && Attempts(p, i).1 == Attempts(p, 0).1
  }

  lemma SoFarStep(p: Probe, i: nat, events: seq<Event>)
    requires i < MaxAttempts && !p.answered(i) && !StopsAfter(p, i) && SoFar(p, i, events)
    ensures SoFar(p, i + 1, events + ([Ping(i)] + SpawnAt(i)))
  {
    AttemptsStep(p, i);
    assert events + ([Ping(i)] + SpawnAt(i)) + Attempts(p, i + 1).0 == events + Attempts(p, i).0;
  }

  lemma SoFarLast(p: Probe, i: nat, events: seq<Event>)
    requires i < MaxAttempts && (p.answered(i) || StopsAfter(p, i)) && SoFar(p, i, events)
    ensures events + Attempts(p, i).0 == Attempts(p, 0).0 && p.answered(i) == Attempts(p, 0).1
    ensures Attempts(p, i).0 == if p.answered(i) then [Ping(i)] else [Ping(i)] + SpawnAt(i)
  {
    AttemptsLast(p, i);
  }

  lemma SoFarEnd(p: Probe, events: seq<Event>)
    requires SoFar(p, MaxAttempts, events)
    ensures events == Attempts(p, 0).0 && !Attempts(p, 0).1
  {
    assert events + [] == events;
  }

  /** The retry loop of `startFait`, as written: attempts until one is answered, one ends the loop, or all 100 are spent. */
  method LaunchLoop(p: Probe) returns (events: seq<Event>, ok: bool)
    ensures events == Attempts(p, 0).0 && ok == Attempts(p, 0).1
  {
    events := [];
    ok := false;
    var i: nat := 0;
    while i < MaxAttempts
      invariant i <= MaxAttempts && SoFar(p, i, events)
      decreases MaxAttempts - i
    {
      var step, answered, stop := OneAttempt(p, i);
      if stop {
        SoFarLast(p, i, events);
        return events + step, answered;
      }
      SoFarStep(p, i, events);
      events := events + step;
      i := i + 1;
    }
    SoFarEnd(p, events);
  }

  /**
   * `startFait` as a step of the manager: a second start does nothing; otherwise the
   * manager is marked started, and the server is running exactly when the jar was
   * found and a ping the loop reaches was answered.
   */
  method StartFait(m: Manager, p: Probe) returns (r: Manager, events: seq<Event>)
    ensures m.started ==> r == m && events == []
    ensures !m.started ==> r.started && r.running.Some? && r.(started := m.started, running := m.running) == m
    ensures !m.started ==> (r.running == Some(true) <==> p.jarFound && exists j :: Reaches(p, 0, j) && p.answered(j))
    ensures !p.jarFound ==> events == []
    ensures PingsReached(p, 0, events) && PingsIncreasing(events) && SpawnFirst(events)
    ensures Valid(m) ==> Valid(r)
  {
    if m.started {
      return m, [];
    }
    if !p.jarFound {
      return m.(started := true, running := Some(false)), [];
    }
    var ok;
    events, ok := LaunchLoop(p);
    AttemptsReached(p, 0);
    AttemptsIncreasing(p, 0);
    AttemptsSpawnFirst(p, 0);
    AttemptsAnswered(p, 0);
    r := m.(started := true, running := Some(ok));
  }
}
