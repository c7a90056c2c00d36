/**
 * The engine manager's scheduler: targets wait in a pending list, at most
 * four run at a time in the active list, and each target's status is driven
 * by the events of its engine process — the deadline timer, output lines,
 * `error`, `disconnect` and `close` — until `finishingAnalysis` reports it
 * once through the target's done callback.
 *
 * Spawning, killing and the clock are not performed: the process id and the
 * current time are parameters, a kill is recorded in `killRequested`, and a
 * callback invocation is recorded in `startedCalls` or `reports`.
 */
module EngineManager {
  import opened JsStrings
  import opened DefectCode
  import opened EngineOutput

  const AnalysisMaxSize: nat := 4
  const DefaultTargetTimeout: nat := 20 * 60 * 1000
  const FirstTargetId: int := 100000

  datatype Status = Pending | Analyzing | Success | Timeout | Stop | Fail

  /** The reason a finished analysis reports as its error; none for a success. */
  datatype DoneError = Stopped | TimedOut(timeout: int) | EngineError | Failed(status: Status)

  const StopMessage: string := "analysis stopped (ENGINE STOP)"
  const TimeoutPrefix: string := "analysis timeout (ENGINE TIMEOUT) : "

  /** The error text handed to the done callback; `statusName` renders a status as the constants module does. */
  function Message(e: DoneError, statusName: Status -> string): string
  {
    match e
    case Stopped => StopMessage
    case TimedOut(t) => TimeoutPrefix + IntToString(t) + "ms"
    case EngineError => "analysis failed (ENGINE ERROR)"
    case Failed(s) => "analysis failed (" + statusName(s) + ")"
  }

  /** The stop and timeout messages differ, and the timeout message carries the timeout in milliseconds. */
  lemma TimeoutMessage(t: nat, statusName: Status -> string)
    ensures Message(Stopped, statusName) != Message(TimedOut(t), statusName)
    ensures var m := Message(TimedOut(t), statusName);
      |TimeoutPrefix| <= |m| && m[..|TimeoutPrefix|] == TimeoutPrefix
      && ParseInt(m[|TimeoutPrefix|..]) == Some(t)
  {
    var m := Message(TimedOut(t), statusName);
    assert m == TimeoutPrefix + (NatToString(t) + "ms");
    assert m[9] == 't' && StopMessage[9] == 's';
    assert m[|TimeoutPrefix|..] == NatToString(t) + "ms";
    ParseIntOfNatToString(t, "ms");
  }

  /** What `finishingAnalysis` decides: the final status, the type-analysis status and the error. */
  datatype Verdict = Verdict(status: Status, typeAnalysisStatus: Option<Status>, error: Option<DoneError>)

  function Finishing(status: Status, typeAnalysisStatus: Option<Status>, timeout: int): (r: Verdict)
    ensures r.error.None? <==> status == Success
    ensures status == Stop ==> r.error == Some(Stopped)
    ensures status == Timeout ==> r.error == Some(TimedOut(timeout))
    ensures status == Analyzing ==> r.error == Some(EngineError)
    ensures status in {Pending, Fail} ==> r.error == Some(Failed(status))
    ensures status in {Success, Stop, Timeout} ==>
              r.status == status
              && r.typeAnalysisStatus == (if typeAnalysisStatus == Some(Timeout) then typeAnalysisStatus else Some(Success))
    ensures status !in {Success, Stop, Timeout} ==> r.status == Fail && r.typeAnalysisStatus == Some(Fail)
  {
    var tas := if typeAnalysisStatus != Some(Timeout) then Some(Success) else typeAnalysisStatus;
    match status
    case Success => Verdict(status, tas, None)
    case Stop => Verdict(status, tas, Some(Stopped))
    case Timeout => Verdict(status, tas, Some(TimedOut(timeout)))
    case Analyzing => Verdict(Fail, Some(Fail), Some(EngineError))
    case _ => Verdict(Fail, Some(Fail), Some(Failed(status)))
  }

  /** The copy of a target handed to the done callback (`generateAnalysisResult`). */
  datatype AnalysisResult = AnalysisResult(
    id: int, path: string, status: Status, typeAnalysisStatus: Option<Status>, startTime: Option<int>,
    files: seq<FileInfo>, alarms: seq<EngineAlarm>)

  /** One call of the done callback. */
  datatype Report = Report(error: Option<DoneError>, result: AnalysisResult)

  /** The mutable part of a target. `timeout` 0 means not set. */
  datatype TargetState = TargetState(
    status: Status, typeAnalysisStatus: Option<Status>, timeout: nat, startTime: Option<int>,
    files: seq<FileInfo>, alarms: seq<EngineAlarm>, fileCache: map<string, seq<string>>,
    command: seq<string>, process: Option<int>, timerArmed: bool, killRequested: bool,
    startedCalls: seq<Status>, reports: seq<Report>)

  const NewTarget: TargetState := TargetState(Pending, None, 0, None, [], [], map[], [], None, false, false, [], [])

  // ---------------------------------------------------------------------------
  // the transitions of one target

  /** Admission: the engine is spawned for the target, its deadline armed and its status set to ANALYZING. */
  function Admitted(s: TargetState, path: string, rules: seq<string>, startedCallback: bool, pid: int, now: int)
    : (r: TargetState)
    ensures r.status == Analyzing && r.timerArmed && r.process == Some(pid) && r.startTime == Some(now)
    ensures r.timeout > 0 && (s.timeout > 0 ==> r.timeout == s.timeout)
    ensures r.command == CreateLiteAnalysisCommand(path, rules) && r.fileCache == map[]
    ensures r.startedCalls == s.startedCalls + (if startedCallback then [Analyzing] else [])
    ensures r.(status := s.status, timeout := s.timeout, startTime := s.startTime, fileCache := s.fileCache,
               command := s.command, process := s.process, timerArmed := s.timerArmed, startedCalls := s.startedCalls) == s
  {
    Launched(Spawned(s, path, rules, pid), startedCallback, now)
  }

  /** The first step of admission: the command is built, the process spawned, the default deadline filled in. */
  function Spawned(s: TargetState, path: string, rules: seq<string>, pid: int): TargetState
  {
    s.(command := CreateLiteAnalysisCommand(path, rules),
       process := Some(pid),
       timeout := if s.timeout == 0 then DefaultTargetTimeout else s.timeout)
  }

  /** The second step: start time, ANALYZING, the started callback, the deadline timer and a fresh file cache. */
  function Launched(s: TargetState, startedCallback: bool, now: int): TargetState
  {
    s.(startTime := Some(now),
       status := Analyzing,
       startedCalls := s.startedCalls + (if startedCallback then [Analyzing] else []),
       timerArmed := true,
       fileCache := map[])
  }

  /** The deadline: an analysis still running is marked TIMEOUT and its process group killed. */
  function TimerFired(s: TargetState): (r: TargetState)
    ensures r.status != s.status ==> s.status == Analyzing && r.status == Timeout
    ensures s.status != Analyzing || !s.timerArmed ==> r == s
    ensures s.status == Analyzing && s.timerArmed ==> r == s.(status := Timeout, killRequested := true)
  {
    if s.timerArmed && s.status == Analyzing then s.(status := Timeout, killRequested := true) else s
  }

  /** `error` and `disconnect`: an analysis still running fails. */
  function ProcessFailed(s: TargetState): (r: TargetState)
    ensures r.status != s.status ==> s.status == Analyzing && r.status == Fail
    ensures r == s.(status := r.status)
    ensures s.status == Analyzing ==> r.status == Fail
  {
    if s.status == Analyzing then s.(status := Fail) else s
  }

  /**
   * One output line, read with the files of the analysed directory in `disk`;
   * the flag says the handler threw. Lines are ignored once the target has
   * left ANALYZING.
   */
  function LineReceived(s: TargetState, disk: map<string, string>, line: string): (r: (TargetState, bool))
    ensures s.status != Analyzing ==> r == (s, false)
    ensures r.0.status != s.status ==> r.0.status == Success
    ensures r.0.typeAnalysisStatus != s.typeAnalysisStatus ==> r.0.typeAnalysisStatus == Some(Timeout)
    ensures |s.alarms| <= |r.0.alarms| <= |s.alarms| + 1 && r.0.alarms[..|s.alarms|] == s.alarms
    ensures |s.files| <= |r.0.files| <= |s.files| + 1 && r.0.files[..|s.files|] == s.files
    ensures r.0.(status := s.status, typeAnalysisStatus := s.typeAnalysisStatus, files := s.files,
                 alarms := s.alarms, fileCache := s.fileCache) == s
    ensures s.status == Analyzing ==>
              var e := LineEffectOf(s.fileCache, disk, line);
              r.0.fileCache == e.0 && r.1 == e.1.Crash?
              && (e.1.AddAlarm? ==> r.0.alarms == s.alarms + [e.1.alarm])
              && (e.1.AddFile? ==> r.0.files == s.files + [e.1.info])
  {
    if s.status != Analyzing then (s, false)
    else
      var e := LineEffectOf(s.fileCache, disk, line);
      Applied(s.(fileCache := e.0), e.1)
  }

  /** What one classified line does to the target; the flag says the handler threw. */
  function Applied(t: TargetState, effect: LineEffect): (r: (TargetState, bool))
    ensures r.0.status != t.status ==> r.0.status == Success
    ensures r.0.typeAnalysisStatus != t.typeAnalysisStatus ==> r.0.typeAnalysisStatus == Some(Timeout)
    ensures |t.alarms| <= |r.0.alarms| <= |t.alarms| + 1 && r.0.alarms[..|t.alarms|] == t.alarms
    ensures |t.files| <= |r.0.files| <= |t.files| + 1 && r.0.files[..|t.files|] == t.files
    ensures r.0.(status := t.status, typeAnalysisStatus := t.typeAnalysisStatus, files := t.files, alarms := t.alarms) == t
    ensures r.1 == effect.Crash?
    ensures effect.AddAlarm? ==> r.0.alarms == t.alarms + [effect.alarm]
    ensures effect.AddFile? ==> r.0.files == t.files + [effect.info]
  {
    match effect
    case AddAlarm(a) => (t.(alarms := t.alarms + [a]), false)
    case AddFile(info) => (t.(files := t.files + [info]), false)
    case TypeAnalysisTimedOut => (t.(typeAnalysisStatus := Some(Timeout)), false)
    case Succeeded => (t.(status := Success), false)
    case NoEffect => (t, false)
    case Crash => (t, true)
  }

  /** `finishingAnalysis`: the verdict is applied and reported once, with a copy of the target. */
  function Finished(s: TargetState, id: int, path: string): (r: TargetState)
    ensures var v := Finishing(s.status, s.typeAnalysisStatus, s.timeout);
      r.status == v.status && r.typeAnalysisStatus == v.typeAnalysisStatus
      && r.reports == s.reports + [Report(v.error, AnalysisResult(id, path, v.status, v.typeAnalysisStatus, s.startTime, s.files, s.alarms))]
    ensures r.(status := s.status, typeAnalysisStatus := s.typeAnalysisStatus, reports := s.reports) == s
  {
    var v := Finishing(s.status, s.typeAnalysisStatus, s.timeout);
    var result := AnalysisResult(id, path, v.status, v.typeAnalysisStatus, s.startTime, s.files, s.alarms);
    s.(status := v.status, typeAnalysisStatus := v.typeAnalysisStatus, reports := s.reports + [Report(v.error, result)])
  }

  /** `close`: the deadline is cleared and the analysis finished. */
  function Closed(s: TargetState, id: int, path: string): (r: TargetState)
    ensures !r.timerArmed && |r.reports| == |s.reports| + 1
    ensures r.reports[|s.reports|].error.None? <==> s.status == Success
    ensures s.status == Analyzing ==> r.status == Fail && r.typeAnalysisStatus == Some(Fail)
  {
    Finished(s.(timerArmed := false), id, path)
  }

  /** `stop` of a pending target: STOP, reported once; no process is ever spawned for it. */
  function StoppedWhilePending(s: TargetState, id: int, path: string): (r: TargetState)
    ensures r.status == Stop && r.process == s.process && r.command == s.command
    ensures r.reports == s.reports + [Report(Some(Stopped), AnalysisResult(id, path, Stop, r.typeAnalysisStatus, s.startTime, s.files, s.alarms))]
  {
    Finished(s.(status := Stop), id, path)
  }

  /** `stop` of a running target: STOP and a kill; the report is left to `close`. */
  function StoppedWhileActive(s: TargetState): (r: TargetState)
    ensures r.status == Stop && r.reports == s.reports
    ensures r.killRequested == (s.killRequested || s.process.Some?)
    ensures r.(status := s.status, killRequested := s.killRequested) == s
  {
    s.(status := Stop, killRequested := s.killRequested || s.process.Some?)
  }

  /** No event brings a target back to PENDING. */
  lemma NeverBackToPending(s: TargetState, id: int, path: string, disk: map<string, string>, line: string)
    requires s.status != Pending
    ensures TimerFired(s).status != Pending && ProcessFailed(s).status != Pending
    ensures LineReceived(s, disk, line).0.status != Pending
    ensures Finished(s, id, path).status != Pending && StoppedWhileActive(s).status != Pending
  {
  }

  /**
   * Once SUCCESS, TIMEOUT, STOP or FAIL, the timer, a process failure and an
   * output line change nothing, and the finish keeps the status.
   */
  lemma SettledStatus(s: TargetState, id: int, path: string, disk: map<string, string>, line: string)
    requires s.status in {Success, Timeout, Stop, Fail}
    ensures TimerFired(s) == s && ProcessFailed(s) == s && LineReceived(s, disk, line) == (s, false)
    ensures Finished(s, id, path).status == s.status
  {
  }

  // ---------------------------------------------------------------------------
  // a target

  class Target {
    const id: int
    const path: string
    const rules: seq<string>
    const hasStartedCallback: bool
    var status: Status
    var typeAnalysisStatus: Option<Status>
    var timeout: nat
    var startTime: Option<int>
    var files: seq<FileInfo>
    var alarms: seq<EngineAlarm>
    var fileCache: map<string, seq<string>>
    var command: seq<string>
    var process: Option<int>
    var timerArmed: bool
    var killRequested: bool
    var startedCalls: seq<Status>
    var reports: seq<Report>

    function State(): TargetState
      reads this
    {
      TargetState(status, typeAnalysisStatus, timeout, startTime, files, alarms, fileCache,
                  command, process, timerArmed, killRequested, startedCalls, reports)
    }

    constructor (id: int, path: string, rules: seq<string>, hasStartedCallback: bool)
      ensures this.id == id && this.path == path && this.rules == rules
      ensures this.hasStartedCallback == hasStartedCallback
      ensures State() == NewTarget
    {
      this.id := id;
      this.path := path;
      this.rules := rules;
      this.hasStartedCallback := hasStartedCallback;
      status := Pending;
      typeAnalysisStatus := None;
      timeout := 0;
      startTime := None;
      files := [];
      alarms := [];
      fileCache := map[];
      command := [];
      process := None;
      timerArmed := false;
      killRequested := false;
      startedCalls := [];
      reports := [];
    }

    /** The target's part of `analyzePendingTarget`. */
    method Admit(pid: int, now: int)
      modifies this
      ensures State() == Admitted(old(State()), path, rules, hasStartedCallback, pid, now)
    {
      Spawn(pid);
      Launch(now);
    }

    method Spawn(pid: int)
      modifies this
      ensures State() == Spawned(old(State()), path, rules, pid)
    {
      command := CreateLiteAnalysisCommand(path, rules);
      process := Some(pid);
      if timeout == 0 {
        timeout := DefaultTargetTimeout;
      }
    }

    method Launch(now: int)
      modifies this
      ensures State() == Launched(old(State()), hasStartedCallback, now)
    {
      startTime := Some(now);
      status := Analyzing;
      if hasStartedCallback {
        startedCalls := startedCalls + [Analyzing];
      }
      timerArmed := true;
      fileCache := map[];
    }

    method OnTimer()
      modifies this
      ensures State() == TimerFired(old(State()))
    {
      if timerArmed && status == Analyzing {
        status := Timeout;
        killRequested := true;
      }
    }

    /** The `error` and `disconnect` handlers. */
    method OnProcessFailure()
      modifies this
      ensures State() == ProcessFailed(old(State()))
    {
      if status == Analyzing {
        status := Fail;
      }
    }

    /** The `line` handler; `threw` when the source's handler throws. */
    method OnLine(disk: map<string, string>, line: string) returns (threw: bool)
      modifies this
      ensures (State(), threw) == LineReceived(old(State()), disk, line)
    {
      threw := false;
      if status != Analyzing {
        return;
      }
      var e := LineEffectOf(fileCache, disk, line);
      fileCache := e.0;
      threw := Apply(e.1);
    }

    /** The effect of a classified line on the target. */
    method Apply(effect: LineEffect) returns (threw: bool)
      modifies this
      ensures (State(), threw) == Applied(old(State()), effect)
    {
      threw := false;
      match effect {
        case AddAlarm(a) => alarms := alarms + [a];
        case AddFile(info) => files := files + [info];
        case TypeAnalysisTimedOut => typeAnalysisStatus := Some(Timeout);
        case Succeeded => status := Success;
        case NoEffect =>
        case Crash => threw := true;
      }
    }

    /** `finishingAnalysis`. */
    method Finish()
      modifies this
      ensures State() == Finished(old(State()), id, path)
    {
      if typeAnalysisStatus != Some(Timeout) {
        typeAnalysisStatus := Some(Success);
      }
      var error: Option<DoneError>;
      match status {
        case Success => error := None;
        case Stop => error := Some(Stopped);
        case Timeout => error := Some(TimedOut(timeout));
        case Analyzing =>
          error := Some(EngineError);
          status := Fail;
          typeAnalysisStatus := Some(Fail);
        case _ =>
          error := Some(Failed(status));
          status := Fail;
          typeAnalysisStatus := Some(Fail);
      }
      reports := reports + [Report(error, AnalysisResult(id, path, status, typeAnalysisStatus, startTime, files, alarms))];
    }
  }

  // ---------------------------------------------------------------------------
  // the scheduler

  /** The first position of a target with this id, -1 when none has it. */
  function FindId(ts: seq<Target>, id: int): (r: int)
    ensures -1 <= r < |ts|
    ensures r == -1 <==> forall i :: 0 <= i < |ts| ==> ts[i].id != id
    ensures r >= 0 ==> ts[r].id == id && forall i :: 0 <= i < r ==> ts[i].id != id
  {
    if ts == [] then -1
    else if ts[0].id == id then 0
    else
      var r := FindId(ts[1..], id);
      assert forall i :: 1 <= i < |ts| ==> ts[i] == ts[1..][i - 1];
      if r == -1 then -1 else r + 1
  }

  /** The target with this id, as a frame: empty when there is none. */
  function Found(ts: seq<Target>, id: int): set<Target>
  {
    var i := FindId(ts, id);
    if i >= 0 then {ts[i]} else {}
  }

  function Head(ts: seq<Target>): set<Target>
  {
    if ts == [] then {} else {ts[0]}
  }

  predicate DistinctIds(ts: seq<Target>)
  {
    forall i, j :: 0 <= i < j < |ts| ==> ts[i].id != ts[j].id
  }

  predicate IdsBelow(ts: seq<Target>, bound: int)
  {
    forall i :: 0 <= i < |ts| ==> ts[i].id < bound
  }

  predicate AllPending(ts: seq<Target>)
    reads ts
  {
    forall i :: 0 <= i < |ts| ==> ts[i].status == Pending
  }

  function Without(ts: seq<Target>, i: int): seq<Target>
    requires 0 <= i < |ts|
  {
    ts[..i] + ts[i + 1..]
  }

  class Manager {
    var pending: seq<Target>
    var analyzing: seq<Target>
    var nextId: int

    /**
     * At most four active targets; the pending ones are still PENDING; every
     * id is below the next one and no two targets share an id.
     */
    predicate Valid()
      reads this, pending
    {
      |analyzing| <= AnalysisMaxSize
      && FirstTargetId <= nextId
      && AllPending(pending)
      && DistinctIds(pending + analyzing)
      && IdsBelow(pending + analyzing, nextId)
    }

    constructor ()
      ensures Valid() && pending == [] && analyzing == [] && nextId == FirstTargetId
    {
      pending := [];
      analyzing := [];
      nextId := FirstTargetId;
    }

    method GetUniqueTargetId() returns (id: int)
      modifies this
      ensures id == old(nextId) && nextId == id + 1
      ensures pending == old(pending) && analyzing == old(analyzing)
    {
      id := nextId;
      nextId := nextId + 1;
    }

    /** `canStartAnalysis`: a target may become active while fewer than four are. */
    predicate CanStartAnalysis()
      reads this
      ensures CanStartAnalysis() ==> |analyzing| + 1 <= AnalysisMaxSize
    {
      |analyzing| < AnalysisMaxSize
    }

    /** Admission: the oldest pending target becomes active when fewer than four are. */
    method AnalyzePendingTarget(pid: int, now: int)
      requires Valid()
      modifies this, Head(pending)
      ensures Valid() && nextId == old(nextId)
      ensures old(|pending| == 0 || |analyzing| >= AnalysisMaxSize) ==>
                pending == old(pending) && analyzing == old(analyzing) && unchanged(Head(pending))
      ensures old(|pending| > 0 && |analyzing| < AnalysisMaxSize) ==>
                pending == old(pending[1..]) && analyzing == old(analyzing + [pending[0]])
                && old(pending[0]).State() == Admitted(old(pending[0].State()), old(pending[0]).path,
                                                       old(pending[0]).rules, old(pending[0]).hasStartedCallback, pid, now)
    {
      if |pending| <= 0 {
        return;
      }
      if !CanStartAnalysis() {
        return;
      }
      var t := pending[0];
      ghost var all := pending + analyzing;
      pending := pending[1..];
      analyzing := analyzing + [t];
      assert pending + analyzing == all[1..] + [all[0]];
      t.Admit(pid, now);
      assert AllPending(pending) by {
        forall i | 0 <= i < |pending| ensures pending[i].status == Pending {
          assert all[i + 1].id != t.id;
        }
      }
      Rotated(all);
    }

    /**
     * `start`: without a done callback nothing happens; an empty path is
     * refused; otherwise an id is taken and, by the outcome of `fs.stat`, the
     * target is queued and admission runs, or the failure is reported.
     * `queued` is the new target when one is queued: it joins the end of the
     * pending list, and admission then starts the oldest pending target if
     * fewer than four are active — the new one itself when none was waiting.
     */
    method Start(path: string, rules: seq<string>, hasStartedCallback: bool, hasDoneCallback: bool,
                 stat: StatOutcome, pid: int, now: int)
      returns (id: Option<int>, refusal: Option<string>, ghost queued: Target?)
      requires Valid()
      modifies this, Head(pending)
      ensures Valid()
      ensures !(hasDoneCallback && path != [] && stat == Directory) ==> queued == null
      ensures hasDoneCallback && path != [] && stat == Directory ==>
                queued != null && fresh(queued)
                && queued.id == old(nextId) && queued.path == path && queued.rules == rules
                && queued.hasStartedCallback == hasStartedCallback
      ensures hasDoneCallback && path != [] && stat == Directory && old(|analyzing|) >= AnalysisMaxSize ==>
                pending == old(pending) + [queued] && analyzing == old(analyzing) && queued.State() == NewTarget
      ensures hasDoneCallback && path != [] && stat == Directory && old(|analyzing|) < AnalysisMaxSize
              && old(pending) == [] ==>
                pending == [] && analyzing == old(analyzing) + [queued]
                && queued.State() == Admitted(NewTarget, path, rules, hasStartedCallback, pid, now)
      ensures hasDoneCallback && path != [] && stat == Directory && old(|analyzing|) < AnalysisMaxSize
              && old(pending) != [] ==>
                pending == old(pending[1..]) + [queued] && analyzing == old(analyzing + [pending[0]])
                && queued.State() == NewTarget
                && old(pending[0]).State() == Admitted(old(pending[0].State()), old(pending[0]).path,
                                                       old(pending[0]).rules, old(pending[0]).hasStartedCallback, pid, now)
      ensures !hasDoneCallback ==> id.None? && refusal.None? && pending == old(pending) && nextId == old(nextId)
      ensures hasDoneCallback && path == [] ==>
                id.None? && refusal == Some("targetPath should not be empty") && pending == old(pending) && nextId == old(nextId)
      ensures hasDoneCallback && path != [] ==> id == Some(old(nextId)) && nextId == old(nextId) + 1
      ensures hasDoneCallback && path != [] && stat == StatFailed ==> refusal == Some("start failed") && pending == old(pending)
      ensures hasDoneCallback && path != [] && stat == NotDirectory ==> refusal == Some(path + " is not a file") && pending == old(pending)
      ensures hasDoneCallback && path != [] && stat == Directory ==> refusal.None?
      ensures stat != Directory || !hasDoneCallback || path == [] ==> analyzing == old(analyzing)
      ensures !(hasDoneCallback && path != [] && stat == Directory && old(|analyzing|) < AnalysisMaxSize) ==>
                unchanged(old(Head(pending)))
    {
      queued := null;
      if !hasDoneCallback {
        return None, None, null;
      }
      if path == [] {
        return None, Some("targetPath should not be empty"), null;
      }
      var n := GetUniqueTargetId();
      var t := new Target(n, path, rules, hasStartedCallback);
      match stat {
        case StatFailed => refusal := Some("start failed");
        case NotDirectory => refusal := Some(path + " is not a file");
        case Directory =>
          refusal := None;
          queued := t;
          Enqueue(t, pid, now);
      }
      id := Some(n);
    }

    /** The queuing half of `start`: the target taking the last id joins the end of the pending list and admission runs. */
    method Enqueue(t: Target, pid: int, now: int)
      requires Valid() && t.id == nextId - 1 && IdsBelow(pending + analyzing, nextId - 1)
      requires t.State() == NewTarget && t !in pending
      modifies this, Head(pending), t
      ensures Valid() && nextId == old(nextId)
      ensures old(|analyzing|) >= AnalysisMaxSize ==>
                pending == old(pending) + [t] && analyzing == old(analyzing) && t.State() == NewTarget
                && unchanged(old(Head(pending)))
      ensures old(|analyzing|) < AnalysisMaxSize && old(pending) == [] ==>
                pending == [] && analyzing == old(analyzing) + [t]
                && t.State() == Admitted(NewTarget, t.path, t.rules, t.hasStartedCallback, pid, now)
      ensures old(|analyzing|) < AnalysisMaxSize && old(pending) != [] ==>
                pending == old(pending[1..]) + [t] && analyzing == old(analyzing + [pending[0]])
                && t.State() == NewTarget
                && old(pending[0]).State() == Admitted(old(pending[0].State()), old(pending[0]).path,
                                                       old(pending[0]).rules, old(pending[0]).hasStartedCallback, pid, now)
    {
      ghost var before := pending + analyzing;
      pending := pending + [t];
      assert pending + analyzing == Inserted(before, |pending| - 1, t);
      InsertedKeepsIds(before, |pending| - 1, t, nextId);
      AnalyzePendingTarget(pid, now);
    }

    /**
     * `stop`: a pending target with the id leaves the pending list, becomes
     * STOP and is reported once; an active one becomes STOP and its process
     * group is killed, the report being left to `close`.
     */
    method StopAnalysis(id: int)
      requires Valid()
      modifies this, Found(pending, id), Found(analyzing, id)
      ensures Valid() && nextId == old(nextId) && analyzing == old(analyzing)
      ensures var k := FindId(old(pending), id);
        k >= 0 ==>
          pending == Without(old(pending), k)
          && old(pending[k]).State() == StoppedWhilePending(old(pending[k].State()), id, old(pending[k]).path)
      ensures FindId(old(pending), id) == -1 ==> pending == old(pending)
      ensures var k := FindId(old(analyzing), id);
        k >= 0 ==> old(analyzing[k]).State() == StoppedWhileActive(old(analyzing[k].State()))
    {
      OneList(pending, analyzing, id);
      StopPending(id);
      StopActive(id);
    }

    /** The pending half of `stop`. */
    method StopPending(id: int)
      requires Valid()
      modifies this, Found(pending, id)
      ensures Valid() && nextId == old(nextId) && analyzing == old(analyzing)
      ensures var k := FindId(old(pending), id);
        k >= 0 ==>
          pending == Without(old(pending), k)
          && old(pending[k]).State() == StoppedWhilePending(old(pending[k].State()), id, old(pending[k]).path)
      ensures FindId(old(pending), id) == -1 ==> pending == old(pending)
    {
      ghost var all := pending + analyzing;
      var i := 0;
      while i < |pending|
        invariant 0 <= i <= |pending| && pending == old(pending)
        invariant forall j :: 0 <= j < i ==> pending[j].id != id
      {
        if pending[i].id == id {
          assert FindId(pending, id) == i;
          StopPendingAt(i);
          return;
        }
        i := i + 1;
      }
    }

    /** The pending target at position i leaves the pending list, becomes STOP and is reported. */
    method StopPendingAt(i: int)
      requires Valid() && 0 <= i < |pending|
      modifies this, pending[i]
      ensures Valid() && nextId == old(nextId) && analyzing == old(analyzing)
      ensures pending == Without(old(pending), i)
      ensures old(pending[i]).State()
              == StoppedWhilePending(old(pending[i].State()), old(pending[i]).id, old(pending[i]).path)
    {
      ghost var all := pending + analyzing;
      var t := pending[i];
      pending := Without(pending, i);
      ghost var before := t.State();
      t.status := Stop;
      assert t.State() == before.(status := Stop);
      t.Finish();
      RemovedKeepsIds(all, i, nextId);
      WithoutConcat(old(pending), analyzing, i);
      assert AllPending(pending) by {
        forall j | 0 <= j < |pending| ensures pending[j].status == Pending {
          var j' := if j < i then j else j + 1;
          assert pending[j] == all[j'] && all[i] == t;
          assert all[j'].id != all[i].id;
          assert old(all[j'].status) == Pending;
        }
      }
    }

    /** The active half of `stop`. */
    method StopActive(id: int)
      requires Valid()
      modifies Found(analyzing, id)
      ensures Valid()
      ensures var k := FindId(analyzing, id);
        k >= 0 ==> analyzing[k].State() == StoppedWhileActive(old(analyzing[k].State()))
    {
      var i := 0;
      while i < |analyzing|
        invariant 0 <= i <= |analyzing|
        invariant forall j :: 0 <= j < i ==> analyzing[j].id != id
      {
        if analyzing[i].id == id {
          var t := analyzing[i];
          assert FindId(analyzing, id) == i;
          NotPending(pending, analyzing, i);
          ghost var before := t.State();
          t.status := Stop;
          if t.process.Some? {
            t.killRequested := true;
          }
          assert t.State() == StoppedWhileActive(before);
          return;
        }
        i := i + 1;
      }
    }

    /**
     * `close`: the deadline is cleared, the analysis finished, the target
     * leaves the active list and admission runs once; with a place free,
     * the oldest pending target starts.
     */
    method OnClose(t: Target, pid: int, now: int)
      requires Valid() && t in analyzing
      modifies this, t, Head(pending)
      ensures Valid() && nextId == old(nextId)
      ensures t.State() == Closed(old(t.State()), t.id, t.path)
      ensures var rest := Without(old(analyzing), FindId(old(analyzing), t.id));
        if old(|pending|) > 0 then
          pending == old(pending[1..]) && analyzing == rest + [old(pending[0])]
          && old(pending[0]).State() == Admitted(old(pending[0].State()), old(pending[0]).path,
                                                 old(pending[0]).rules, old(pending[0]).hasStartedCallback, pid, now)
        else pending == old(pending) && analyzing == rest
    {
      var index := IndexOfTarget(pending, analyzing, t);
      NotPending(pending, analyzing, index);
      Retire(t, index);
      AnalyzePendingTarget(pid, now);
    }

    /** The target's part of `close`: finished and taken out of the active list. */
    method Retire(t: Target, index: int)
      requires Valid() && 0 <= index < |analyzing| && analyzing[index] == t
      modifies this, t
      ensures Valid() && nextId == old(nextId) && pending == old(pending)
      ensures analyzing == Without(old(analyzing), index)
      ensures t.State() == Closed(old(t.State()), t.id, t.path)
    {
      NotPending(pending, analyzing, index);
      ghost var before := t.State();
      t.timerArmed := false;
      assert t.State() == before.(timerArmed := false);
      t.Finish();
      ghost var all := pending + analyzing;
      analyzing := Without(analyzing, index);
      RemovedKeepsIds(all, |pending| + index, nextId);
      WithoutConcat(pending, old(analyzing), |pending| + index);
    }

    /** The deadline timer of an active target. */
    method OnTimer(t: Target)
      requires Valid() && t in analyzing
      modifies t
      ensures Valid() && t.State() == TimerFired(old(t.State()))
    {
      NotPending(pending, analyzing, IndexOfTarget(pending, analyzing, t));
      t.OnTimer();
    }

    /** `error` or `disconnect` of an active target's process. */
    method OnProcessFailure(t: Target)
      requires Valid() && t in analyzing
      modifies t
      ensures Valid() && t.State() == ProcessFailed(old(t.State()))
    {
      NotPending(pending, analyzing, IndexOfTarget(pending, analyzing, t));
      t.OnProcessFailure();
    }

    /** An output line of an active target's engine. */
    method OnLine(t: Target, disk: map<string, string>, line: string) returns (threw: bool)
      requires Valid() && t in analyzing
      modifies t
      ensures Valid() && (t.State(), threw) == LineReceived(old(t.State()), disk, line)
    {
      NotPending(pending, analyzing, IndexOfTarget(pending, analyzing, t));
      threw := t.OnLine(disk, line);
    }

    /** `getStatus`'s answer. */
    function StatusOf(id: int): (r: Option<Status>)
      reads this
      ensures r == Some(Pending) <==> exists i :: 0 <= i < |pending| && pending[i].id == id
      ensures r == Some(Analyzing) <==>
                (forall i :: 0 <= i < |pending| ==> pending[i].id != id)
                && exists i :: 0 <= i < |analyzing| && analyzing[i].id == id
      ensures r.None? <==>
                (forall i :: 0 <= i < |pending| ==> pending[i].id != id)
                && (forall i :: 0 <= i < |analyzing| ==> analyzing[i].id != id)
    {
      if FindId(pending, id) >= 0 then Some(Pending)
      else if FindId(analyzing, id) >= 0 then Some(Analyzing)
      else None
    }

    method GetStatus(id: int) returns (r: Option<Status>)
      ensures r == StatusOf(id)
    {
      var i := 0;
      while i < |pending|
        invariant 0 <= i <= |pending|
        invariant forall j :: 0 <= j < i ==> pending[j].id != id
      {
        if pending[i].id == id {
          return Some(Pending);
        }
        i := i + 1;
      }
      i := 0;
      while i < |analyzing|
        invariant 0 <= i <= |analyzing|
        invariant forall j :: 0 <= j < i ==> analyzing[j].id != id
      {
        if analyzing[i].id == id {
          return Some(Analyzing);
        }
        i := i + 1;
      }
      return None;
    }
  }

  /** The outcome of `fs.stat` on the target path. */
  datatype StatOutcome = StatFailed | Directory | NotDirectory

  /**
   * Five directories submitted to a fresh manager: the first four become
   * active at once, the fifth waits, and the ids are handed out in order.
   */
  method FiveSubmissions(path: string, rules: seq<string>, pid: int, now: int) returns (m: Manager)
    requires path != []
    ensures m.Valid()
    ensures |m.analyzing| == AnalysisMaxSize && |m.pending| == 1
    ensures m.pending[0].id == FirstTargetId + 4 && m.pending[0].status == Pending
    ensures forall i :: 0 <= i < |m.analyzing| ==> m.analyzing[i].id == FirstTargetId + i
  {
    m := new Manager();
    Submit(m, path, rules, pid, now);
    Submit(m, path, rules, pid, now);
    Submit(m, path, rules, pid, now);
    Submit(m, path, rules, pid, now);
    var id, refusal, q := m.Start(path, rules, false, true, Directory, pid, now);
  }

  /** A directory submitted while nothing waits and fewer than four are active becomes active with the next id. */
  method Submit(m: Manager, path: string, rules: seq<string>, pid: int, now: int)
    requires m.Valid() && path != [] && m.pending == [] && |m.analyzing| < AnalysisMaxSize
    modifies m
    ensures m.Valid() && m.pending == [] && m.nextId == old(m.nextId) + 1
    ensures |m.analyzing| == old(|m.analyzing|) + 1 && m.analyzing[..old(|m.analyzing|)] == old(m.analyzing)
    ensures m.analyzing[old(|m.analyzing|)].id == old(m.nextId)
  {
    var id, refusal, q := m.Start(path, rules, false, true, Directory, pid, now);
    assert m.analyzing == old(m.analyzing) + [q];
  }

  function Inserted(ts: seq<Target>, i: int, t: Target): seq<Target>
    requires 0 <= i <= |ts|
  {
    ts[..i] + [t] + ts[i..]
  }

  /** A target with the next id joins without breaking uniqueness or the bound. */
  lemma InsertedKeepsIds(ts: seq<Target>, i: int, t: Target, bound: int)
    requires 0 <= i <= |ts| && DistinctIds(ts) && IdsBelow(ts, bound - 1) && t.id == bound - 1
    ensures DistinctIds(Inserted(ts, i, t)) && IdsBelow(Inserted(ts, i, t), bound)
  {
    var u := Inserted(ts, i, t);
    forall j | 0 <= j < |u| ensures u[j] == if j < i then ts[j] else if j == i then t else ts[j - 1] {
    }
  }

  /** Removing a target keeps the ids distinct and below the bound. */
  lemma RemovedKeepsIds(ts: seq<Target>, i: int, bound: int)
    requires 0 <= i < |ts|
    ensures DistinctIds(ts) ==> DistinctIds(Without(ts, i))
    ensures IdsBelow(ts, bound) ==> IdsBelow(Without(ts, i), bound)
  {
    var u := Without(ts, i);
    forall j | 0 <= j < |u| ensures u[j] == if j < i then ts[j] else ts[j + 1] {
    }
  }

  /** Removing from either part of two concatenated lists. */
  lemma WithoutConcat(a: seq<Target>, b: seq<Target>, i: int)
    requires 0 <= i < |a| + |b|
    ensures i < |a| ==> Without(a, i) + b == Without(a + b, i)
    ensures |a| <= i ==> a + Without(b, i - |a|) == Without(a + b, i)
  {
    if i < |a| {
      assert (a + b)[..i] == a[..i];
      assert (a + b)[i + 1..] == a[i + 1..] + b;
    } else {
      assert (a + b)[..i] == a + b[..i - |a|];
      assert (a + b)[i + 1..] == b[i - |a| + 1..];
    }
  }

  /** No id is both pending and active. */
  lemma OneList(pending: seq<Target>, analyzing: seq<Target>, id: int)
    requires DistinctIds(pending + analyzing)
    ensures FindId(pending, id) == -1 || FindId(analyzing, id) == -1
  {
    var p := FindId(pending, id);
    if p >= 0 {
      forall k | 0 <= k < |analyzing| ensures analyzing[k].id != id {
        assert (pending + analyzing)[p] == pending[p];
        assert (pending + analyzing)[|pending| + k] == analyzing[k];
      }
    }
  }

  /** An active target is none of the pending ones: their ids differ. */
  lemma NotPending(pending: seq<Target>, analyzing: seq<Target>, k: int)
    requires 0 <= k < |analyzing| && DistinctIds(pending + analyzing)
    ensures forall j :: 0 <= j < |pending| ==> pending[j] != analyzing[k]
  {
    forall j | 0 <= j < |pending| ensures pending[j] != analyzing[k] {
      assert (pending + analyzing)[j] == pending[j];
      assert (pending + analyzing)[|pending| + k] == analyzing[k];
    }
  }

  /** `indexOf`: with distinct ids, the position of the target is the position of its id. */
  function IndexOfTarget(pending: seq<Target>, analyzing: seq<Target>, t: Target): (k: int)
    requires t in analyzing && DistinctIds(pending + analyzing)
    ensures 0 <= k < |analyzing| && analyzing[k] == t && k == FindId(analyzing, t.id)
  {
    var k := FindId(analyzing, t.id);
    assert forall i, j :: 0 <= i < j < |analyzing| ==> analyzing[i].id != analyzing[j].id by {
      forall i, j | 0 <= i < j < |analyzing| ensures analyzing[i].id != analyzing[j].id {
        assert (pending + analyzing)[|pending| + i] == analyzing[i];
        assert (pending + analyzing)[|pending| + j] == analyzing[j];
      }
    }
    k
  }

  /** Moving the first target to the end keeps the ids distinct and below the bound. */
  lemma Rotated(all: seq<Target>)
    requires |all| > 0
    ensures DistinctIds(all) ==> DistinctIds(all[1..] + [all[0]])
    ensures forall b :: IdsBelow(all, b) ==> IdsBelow(all[1..] + [all[0]], b)
  {
    var u := all[1..] + [all[0]];
    forall j | 0 <= j < |u| ensures u[j] == if j < |all| - 1 then all[j + 1] else all[0] {
    }
  }
}
