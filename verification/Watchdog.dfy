/**
 The manager, the systemd unit and the host updater sharing `status.json`: when the manager may declare a
 running update dead (`updater.rs`, `host.rs`, and the traps of `airwaves-update`).
 */
module Watchdog {
  import opened Values

  datatype State = Running | Success | Failed | RolledBack

  datatype Status = Status(state: State, phase: string)

  const QUEUED := "queued"

  /** The phases that the updater itself writes. */
  predicate IsUpdaterPhase(phase: string) {
    phase in ["starting", "backing-up", "syncing-host-files", "downloading-compose", "downloading-catalog",
              "pulling-images", "recreating-containers", "health-check", "updating-os-packages", "os-major-upgrade"]
  }

  lemma QueuedIsNoUpdaterPhase()
    ensures !IsUpdaterPhase(QUEUED)
  {
  }

  /** The updater process: its STATE and PHASE variables, and whether a terminal status of its own reached the file. */
  datatype Updater = NotRunning | Alive(state: State, phase: string, terminalWritten: bool)

  /** How the updater process that ended last ended. */
  datatype LastRun = NoRun | Finished | Abandoned

  /**
   `status` is the shared file; `checked` and `queued` count applies that passed their check and that wrote their
   request; `job` is a start job given to systemd; `active` is the unit state that `systemctl show` reports.
   */
  datatype World = World(status: Option<Status>, checked: nat, queued: nat, job: bool, active: bool, updater: Updater,
      lastRun: LastRun)

  datatype Step =
    | ApplyCheck(answered: bool)               // apply or refresh asks systemd whether an update is active
    | ApplyQueue(written: bool)                // writes the request and the queued status
    | ApplyStart                               // systemctl start --no-block
    | UnitStart                                // systemd runs the job
    | UpdaterWrite(phase: string, written: bool)
    | UpdaterFinish(state: State, written: bool)
    | UpdaterExit(written: bool)               // return or trapped exit: a running STATE becomes failed
    | Kill                                     // SIGKILL: no trap runs
    | UnitStopped
    | Poll(answered: bool)                     // progress(), as one step

  function Initial(status: Option<Status>): World
    requires status.Some? ==> !status.value.state.Running?
  {
    World(status, 0, 0, false, false, NotRunning, NoRun)
  }

  predicate Enabled(w: World, step: Step) {
    match step
    case ApplyCheck(_) => true
    case ApplyQueue(_) => w.checked > 0
    case ApplyStart => w.queued > 0
    case UnitStart => w.job
    case UpdaterWrite(phase, _) => w.updater.Alive? && w.updater.state.Running? && IsUpdaterPhase(phase)
    case UpdaterFinish(state, _) => w.updater.Alive? &&
      ((w.updater.state.Running? && (state.Success? || state.Failed?))
        || (w.updater.state.Failed? && state.RolledBack?))
    case UpdaterExit(_) => w.updater.Alive?
    case Kill => w.updater.Alive?
    case UnitStopped => w.active && w.updater.NotRunning?
    case Poll(_) => true
  }

  function Ended(u: Updater): LastRun
    requires u.Alive?
  {
    if u.terminalWritten then Finished else Abandoned
  }

  /** What the manager concludes from a status it read and from systemd's answer (no answer counts as inactive). */
  predicate DeclaresDead(read: Option<Status>, answered: bool, active: bool) {
    read.Some? && read.value.state.Running? && read.value.phase != QUEUED && !(answered && active)
  }

  function Next(w: World, step: Step): World
    requires Enabled(w, step)
  {
    match step
    case ApplyCheck(answered) => if answered && w.active then w else w.(checked := w.checked + 1)
    case ApplyQueue(written) =>
      w.(checked := w.checked - 1, queued := w.queued + 1,
         status := if written then Some(Status(Running, QUEUED)) else w.status)
    case ApplyStart => w.(queued := w.queued - 1, job := true)
    case UnitStart =>
      if w.active then w.(job := false)
      else w.(job := false, active := true, updater := Alive(Running, "starting", false))
    case UpdaterWrite(phase, written) =>
      w.(updater := w.updater.(phase := phase), status := if written then Some(Status(Running, phase)) else w.status)
    case UpdaterFinish(state, written) =>
      var phase := if state.Success? then "done" else w.updater.phase;
      w.(updater := Alive(state, phase, w.updater.terminalWritten || written),
         status := if written then Some(Status(state, phase)) else w.status)
    case UpdaterExit(written) =>
      var u := if w.updater.state.Running? then w.updater.(state := Failed, terminalWritten := written) else w.updater;
      w.(updater := NotRunning, lastRun := Ended(u),
         status := if w.updater.state.Running? && written then Some(Status(Failed, w.updater.phase)) else w.status)
    case Kill => w.(updater := NotRunning, lastRun := Ended(w.updater))
    case UnitStopped => w.(active := false)
    case Poll(answered) =>
      if DeclaresDead(w.status, answered, w.active) then w.(status := Some(Status(Failed, w.status.value.phase))) else w
  }

  predicate Possible(w: World, steps: seq<Step>)
    decreases |steps|
  {
    steps == [] || (Enabled(w, steps[0]) && Possible(Next(w, steps[0]), steps[1..]))
  }

  function Run(w: World, steps: seq<Step>): World
    requires Possible(w, steps)
    decreases |steps|
  {
    if steps == [] then w else Run(Next(w, steps[0]), steps[1..])
  }

  // ---- safety ----------------------------------------------------------------------------------

  /** The file shows an update past the queued window. */
  predicate ShowsProgress(w: World) {
    w.status.Some? && w.status.value.state.Running? && w.status.value.phase != QUEUED
  }

  predicate Inv(w: World) {
    && (w.updater.Alive? ==> w.active)
    && (w.updater.Alive? && w.updater.terminalWritten ==> !w.updater.state.Running? && !ShowsProgress(w))
    && (w.updater.NotRunning? && ShowsProgress(w) ==> w.lastRun.Abandoned?)
  }

  lemma {:induction false} RunsKeepInv(w: World, steps: seq<Step>)
    requires Inv(w) && Possible(w, steps)
    ensures Inv(Run(w, steps))
    decreases |steps|
  {
    hide IsUpdaterPhase;
    if steps != [] {
      QueuedIsNoUpdaterPhase();
      RunsKeepInv(Next(w, steps[0]), steps[1..]);
    }
  }

  /**
   For every interleaving, an answered poll turns `running` into `failed` only when no updater runs and the last one
   ended without a terminal status in the file; and it leaves the queued window alone.
   */
  lemma VerdictIsSound(status: Option<Status>, steps: seq<Step>)
    requires (status.Some? ==> !status.value.state.Running?) && Possible(Initial(status), steps)
    ensures var w := Run(Initial(status), steps);
      Next(w, Poll(true)).status != w.status ==>
        w.updater.NotRunning? && !w.active && w.lastRun.Abandoned? && w.status.value.phase != QUEUED
  {
    RunsKeepInv(Initial(status), steps);
  }

  /**
   For every interleaving, a poll declares a live updater dead exactly when the file shows progress and systemd
   gives no answer.
   */
  lemma LiveUpdaterDeclaredDeadExactly(status: Option<Status>, steps: seq<Step>, answered: bool)
    requires (status.Some? ==> !status.value.state.Running?) && Possible(Initial(status), steps)
    requires Run(Initial(status), steps).updater.Alive?
    ensures var w := Run(Initial(status), steps);
      Next(w, Poll(answered)).status != w.status <==> ShowsProgress(w) && !answered
  {
    RunsKeepInv(Initial(status), steps);
  }

  /** In the queued window no poll changes anything, answered or not. */
  lemma QueuedIsNeverDeclaredDead(w: World, answered: bool)
    requires w.status == Some(Status(Running, QUEUED))
    ensures Next(w, Poll(answered)) == w
  {
  }

  const DONE := "done"

  /** `success` and the phase "done" go together, in the file and in the updater. */
  predicate PhasesFit(w: World) {
    && (w.status.Some? ==> (w.status.value.state.Success? <==> w.status.value.phase == DONE))
    && (w.updater.Alive? ==> (w.updater.state.Success? <==> w.updater.phase == DONE))
  }

  lemma DoneIsNoPhase()
    ensures !IsUpdaterPhase(DONE) && DONE != QUEUED && DONE != "starting"
  {
  }

  lemma StepKeepsPhases(w: World, step: Step)
    requires PhasesFit(w) && Enabled(w, step)
    ensures PhasesFit(Next(w, step))
  {
    hide IsUpdaterPhase;
    DoneIsNoPhase();
  }

  /** For every interleaving the file says "done" exactly with success. */
  lemma {:induction false} RunsKeepPhases(w: World, steps: seq<Step>)
    requires PhasesFit(w) && Possible(w, steps)
    ensures PhasesFit(Run(w, steps))
    decreases |steps|
  {
    hide PhasesFit, Enabled, Next;
    if steps != [] {
      StepKeepsPhases(w, steps[0]);
      RunsKeepPhases(Next(w, steps[0]), steps[1..]);
    }
  }

  lemma SuccessIsDone(status: Option<Status>, steps: seq<Step>)
    requires status.Some? ==>
      !status.value.state.Running? && (status.value.state.Success? <==> status.value.phase == DONE)
    requires Possible(Initial(status), steps)
    ensures var w := Run(Initial(status), steps);
      && (w.status.Some? ==> (w.status.value.state.Success? <==> w.status.value.phase == DONE))
      && (w.updater.Alive? ==> (w.updater.state.Success? <==> w.updater.phase == DONE))
  {
    RunsKeepPhases(Initial(status), steps);
  }

  /** What each terminal write says: success is "done"; a failure or a rollback names the phase the updater was in. */
  lemma TerminalWrites(w: World, step: Step)
    requires Enabled(w, step) && w.updater.Alive? && (step.UpdaterFinish? || step.UpdaterExit?) && step.written
    ensures var e := Next(w, step);
      && (step == UpdaterFinish(Success, true) ==> e.status == Some(Status(Success, DONE)))
      && (step.UpdaterFinish? && !step.state.Success? ==> e.status == Some(Status(step.state, w.updater.phase)))
      && (step.UpdaterExit? && w.updater.state.Running? ==> e.status == Some(Status(Failed, w.updater.phase)))
      && (step.UpdaterExit? && !w.updater.state.Running? ==> e.status == w.status)
  {
  }

  // ---- one update at a time --------------------------------------------------------------------

  /** The requests that the steps write, over the status and request files. */
  function Queueings(steps: seq<Step>): nat {
    if steps == [] then 0 else (if steps[0].ApplyQueue? then 1 else 0) + Queueings(steps[1..])
  }

  /** The checks that systemd does not answer. */
  function BlindChecks(steps: seq<Step>): nat {
    if steps == [] then 0 else (if steps[0] == ApplyCheck(false) then 1 else 0) + BlindChecks(steps[1..])
  }

  /**
   While the unit is active, every request written is paid for by a check that was passed before or that systemd did not
   answer: an answered check never lets an apply through.
   */
  lemma {:induction false} ActiveUnitRefusesApplies(w: World, steps: seq<Step>)
    requires w.active && Possible(w, steps) && UnitStopped !in steps
    ensures var e := Run(w, steps);
      e.active && e.checked + Queueings(steps) == w.checked + BlindChecks(steps)
    decreases |steps|
  {
    if steps != [] {
      assert steps[0] in steps && forall s | s in steps[1..] :: s in steps;
      ActiveUnitRefusesApplies(Next(w, steps[0]), steps[1..]);
    }
  }

  /** From an active unit with no apply past its check, a request can be written exactly after an unanswered check. */
  lemma OnlyBlindChecksQueue(w: World, steps: seq<Step>, written: bool)
    requires w.active && w.checked == 0 && Possible(w, steps) && UnitStopped !in steps
    ensures Queueings(steps) <= BlindChecks(steps)
    ensures Enabled(Run(w, steps), ApplyQueue(written)) <==> Queueings(steps) < BlindChecks(steps)
  {
    ActiveUnitRefusesApplies(w, steps);
  }

  lemma {:induction false} AnsweredChecksAreNotBlind(steps: seq<Step>)
    requires ApplyCheck(false) !in steps
    ensures BlindChecks(steps) == 0
  {
    if steps != [] {
      assert steps[0] in steps && forall s | s in steps[1..] :: s in steps;
      AnsweredChecksAreNotBlind(steps[1..]);
    }
  }

  lemma {:induction false} WithoutQueueing(w: World, steps: seq<Step>)
    requires Possible(w, steps) && Queueings(steps) == 0
    ensures Run(w, steps).status == Some(Status(Running, QUEUED)) ==> w.status == Some(Status(Running, QUEUED))
    decreases |steps|
  {
    hide IsUpdaterPhase;
    if steps != [] {
      QueuedIsNoUpdaterPhase();
      WithoutQueueing(Next(w, steps[0]), steps[1..]);
    }
  }

  /**
   As long as systemd answers every check, an active unit keeps its request and its status file: until it has stopped,
   no request can be written, and the file shows `queued` only if it did at the start.
   */
  lemma ActiveUpdateIsNotOverwritten(w: World, steps: seq<Step>, written: bool)
    requires w.active && w.checked == 0 && Possible(w, steps) && UnitStopped !in steps && ApplyCheck(false) !in steps
    ensures Queueings(steps) == 0 && !Enabled(Run(w, steps), ApplyQueue(written))
    ensures Run(w, steps).status == Some(Status(Running, QUEUED)) ==> w.status == Some(Status(Running, QUEUED))
  {
    OnlyBlindChecksQueue(w, steps, written);
    AnsweredChecksAreNotBlind(steps);
    WithoutQueueing(w, steps);
  }

  /** A check that systemd does not answer lets a second request replace the one of a live updater, in any phase. */
  lemma BlindCheckOverwrites(w: World)
    requires w.updater.Alive? && Inv(w)
    ensures var steps := [ApplyCheck(false)] + [ApplyQueue(true)];
      && w.active && Possible(w, steps) && Queueings(steps) == 1
      && Run(w, steps).updater == w.updater && Run(w, steps).status == Some(Status(Running, QUEUED))
  {
    var check, queue := ApplyCheck(false), ApplyQueue(true);
    Only(Next(w, check), queue);
    Chain(w, check, [queue]);
    assert Queueings([queue]) == 1 && ([check] + [queue])[1..] == [queue];
  }

  // ---- liveness --------------------------------------------------------------------------------

  /** Nothing of a new update is under way, and the steps start none. */
  predicate NoNewUpdate(w: World, steps: seq<Step>) {
    w.checked == 0 && w.queued == 0 && !w.job && forall s | s in steps :: !s.ApplyCheck?
  }

  /** A status that is not running stays as it is until a new update is requested. */
  lemma {:induction false} TerminalStatusStays(w: World, steps: seq<Step>)
    requires Possible(w, steps) && NoNewUpdate(w, steps) && w.updater.NotRunning?
    requires w.status.Some? && !w.status.value.state.Running?
    ensures Run(w, steps).status == w.status
    decreases |steps|
  {
    if steps != [] {
      assert steps[0] in steps && forall s | s in steps[1..] :: s in steps;
      TerminalStatusStays(Next(w, steps[0]), steps[1..]);
    }
  }

  /**
   Once a dead updater's unit has stopped, the next poll reports it exactly when the file is past the queued window.
   */
  lemma DeadUpdaterIsReportedExactly(w: World, answered: bool)
    requires w.updater.NotRunning? && !w.active && w.status.Some? && w.status.value.state.Running?
    ensures Next(w, Poll(answered)).status.value.state.Failed? <==> w.status.value.phase != QUEUED
  {
  }

  lemma Chain(w: World, step: Step, rest: seq<Step>)
    requires Enabled(w, step) && Possible(Next(w, step), rest)
    ensures Possible(w, [step] + rest) && Run(w, [step] + rest) == Run(Next(w, step), rest)
  {
  }

  lemma Only(w: World, step: Step)
    requires Enabled(w, step)
    ensures Possible(w, [step]) && Run(w, [step]) == Next(w, step)
  {
  }

  /** While systemd answers that the unit is active, polls wait; otherwise they report. */
  lemma {:induction false} WaitingEndsInReport(w: World, steps: seq<Step>)
    requires Possible(w, steps) && (forall s | s in steps :: s.UnitStopped? || s.Poll?) && w.updater.NotRunning?
    requires w.status.Some? && w.status.value.phase != QUEUED
    requires w.status.value.state.Running? || w.status.value.state.Failed?
    ensures var e := Run(w, steps);
      && e.status.Some? && e.status.value.phase == w.status.value.phase && e.updater.NotRunning?
      && (e.status.value.state.Running? || e.status.value.state.Failed?)
      && (e.active && (forall s | s in steps :: s != Poll(false)) ==> w.active && e.status == w.status)
      && e.checked == w.checked && e.queued == w.queued && e.job == w.job
    decreases |steps|
  {
    if steps != [] {
      assert steps[0] in steps && forall s | s in steps[1..] :: s in steps;
      WaitingEndsInReport(Next(w, steps[0]), steps[1..]);
    }
  }

  /**
   After a SIGKILL in a later phase, however the unit stop and earlier polls interleave, and whether systemd answers
   them or not, a poll after the unit has stopped leaves `failed` in the file, and it stays there until a new update is
   requested.
   */
  lemma KilledUpdateIsReported(w: World, waiting: seq<Step>, answered: bool, later: seq<Step>)
    requires w.updater.Alive? && ShowsProgress(w)
    requires forall s | s in waiting :: s.UnitStopped? || s.Poll?
    requires Possible(Next(w, Kill), waiting) && !Run(Next(w, Kill), waiting).active
    requires var reported := Next(Run(Next(w, Kill), waiting), Poll(answered));
      Possible(reported, later) && NoNewUpdate(reported, later)
    ensures Run(Next(Run(Next(w, Kill), waiting), Poll(answered)), later).status ==
      Some(Status(Failed, w.status.value.phase))
  {
    WaitingEndsInReport(Next(w, Kill), waiting);
    TerminalStatusStays(Next(Run(Next(w, Kill), waiting), Poll(answered)), later);
  }

  /** Killed before its first write, the update stays `queued` under any number of polls. */
  lemma {:induction false} KilledInQueuedWindowIsNeverReported(w: World, steps: seq<Step>)
    requires w.updater.NotRunning? && w.status == Some(Status(Running, QUEUED)) && Possible(w, steps)
      && NoNewUpdate(w, steps)
    ensures Run(w, steps).status == w.status
    decreases |steps|
  {
    if steps != [] {
      assert steps[0] in steps && forall s | s in steps[1..] :: s in steps;
      KilledInQueuedWindowIsNeverReported(Next(w, steps[0]), steps[1..]);
    }
  }

  // ---- where the verdict is not sound ----------------------------------------------------------

  /** An update is requested and started, and gets as far as some phase. */
  lemma PhaseIsReached(status: Option<Status>, phase: string) returns (steps: seq<Step>)
    requires (status.Some? ==> !status.value.state.Running?) && IsUpdaterPhase(phase)
    ensures Possible(Initial(status), steps)
    ensures Run(Initial(status), steps) ==
      World(Some(Status(Running, phase)), 0, 0, false, true, Alive(Running, phase, false), NoRun)
  {
    hide IsUpdaterPhase, Possible, Run;
    var queued := World(Some(Status(Running, QUEUED)), 0, 0, true, false, NotRunning, NoRun);
    var last := UpdaterWrite(phase, true);
    StartAndWrite(queued, phase);
    Queueing(Initial(status), queued, [UnitStart] + [last]);
    steps := [ApplyCheck(true)] + ([ApplyQueue(true)] + ([ApplyStart] + ([UnitStart] + [last])));
  }

  lemma Queueing(w: World, queued: World, rest: seq<Step>)
    requires !w.active && !w.job && queued == w.(job := true, status := Some(Status(Running, QUEUED)))
      && Possible(queued, rest)
    ensures var steps := [ApplyCheck(true)] + ([ApplyQueue(true)] + ([ApplyStart] + rest));
      Possible(w, steps) && Run(w, steps) == Run(queued, rest)
  {
    var w1 := Next(w, ApplyCheck(true));
    var w2 := Next(w1, ApplyQueue(true));
    Chain(w2, ApplyStart, rest);
    Chain(w1, ApplyQueue(true), [ApplyStart] + rest);
    Chain(w, ApplyCheck(true), [ApplyQueue(true)] + ([ApplyStart] + rest));
  }

  lemma StartAndWrite(w: World, phase: string)
    requires w.job && !w.active && IsUpdaterPhase(phase)
    ensures var steps := [UnitStart] + [UpdaterWrite(phase, true)];
      Possible(w, steps)
      && Run(w, steps) ==
        w.(job := false, active := true, updater := Alive(Running, phase, false),
        status := Some(Status(Running, phase)))
  {
    hide IsUpdaterPhase;
    Only(Next(w, UnitStart), UpdaterWrite(phase, true));
    Chain(w, UnitStart, [UpdaterWrite(phase, true)]);
  }

  predicate Shows(w: World, state: State) {
    w.status.Some? && w.status.value.state == state
  }

  /** In any phase past the queued window, a query that systemd does not answer declares a live updater dead. */
  lemma UnansweredPollIsUnsound(status: Option<Status>, phase: string)
    requires (status.Some? ==> !status.value.state.Running?) && IsUpdaterPhase(phase)
    ensures exists steps :: Possible(Initial(status), steps) && Run(Initial(status), steps).updater.Alive?
                            && Shows(Next(Run(Initial(status), steps), Poll(false)), Failed)
  {
    hide IsUpdaterPhase;
    var steps := PhaseIsReached(status, phase);
    QueuedIsNoUpdaterPhase();
    var w := Run(Initial(status), steps);
    assert Shows(Next(w, Poll(false)), Failed);
  }

  /**
   `after` is reached from `before` by `more`, finished properly, and is overwritten on the strength of `before`'s
   status.
   */
  ghost predicate OverwrittenBySplitPoll(before: World, more: seq<Step>) {
    Possible(before, more) && var after := Run(before, more);
    Shows(after, Success) && after.lastRun.Finished? && DeclaresDead(before.status, true, after.active)
  }

  /** A poll split into a read and a later check can overwrite a finished update. */
  lemma SplitPollOverwritesSuccess(status: Option<Status>, phase: string)
    requires (status.Some? ==> !status.value.state.Running?) && IsUpdaterPhase(phase)
    ensures exists steps, more ::
      Possible(Initial(status), steps) && OverwrittenBySplitPoll(Run(Initial(status), steps), more)
  {
    hide IsUpdaterPhase, Possible, Run;
    var steps := PhaseIsReached(status, phase);
    QueuedIsNoUpdaterPhase();
    var w := Run(Initial(status), steps);
    var a, b, c := UpdaterFinish(Success, true), UpdaterExit(true), UnitStopped;
    Only(Next(Next(w, a), b), c);
    Chain(Next(w, a), b, [c]);
    Chain(w, a, [b] + [c]);
    assert OverwrittenBySplitPoll(w, [a] + ([b] + [c]));
  }
}
