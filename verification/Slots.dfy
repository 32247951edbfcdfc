/**
 A/B slot control on x86: `airwaves-slot-manager` writes grubenv keys one after another, the generated
 `grub.cfg` reads them at boot, and power can fail between any two writes.
 */
module Slots {
  import opened Values

  datatype Slot = A | B

  function Other(s: Slot): Slot {
    if s == A then B else A
  }

  /** The grubenv block on the shared ESP. */
  datatype GrubEnv = GrubEnv(savedEntry: Option<Slot>, nextEntry: Option<Slot>, bootAttempts: Option<string>,
      bootSuccess: Option<string>)

  /** One `grub-editenv` invocation. */
  datatype Write = SetNext(slot: Slot) | ResetAttempts | SetSaved(saved: Slot) | UnsetNext | MarkSuccess

  function Written(env: GrubEnv, w: Write): GrubEnv {
    match w
    case SetNext(s) => env.(nextEntry := Some(s))
    case ResetAttempts => env.(bootAttempts := Some("0"))
    case SetSaved(s) => env.(savedEntry := Some(s))
    case UnsetNext => env.(nextEntry := None)
    case MarkSuccess => env.(bootSuccess := Some("1"))
  }

  function AllWritten(env: GrubEnv, ws: seq<Write>): GrubEnv
    decreases |ws|
  {
    if ws == [] then env else AllWritten(Written(env, ws[0]), ws[1..])
  }

  datatype Command = SetTry(slot: Slot) | Commit(slot: Slot) | Rollback

  /** The writes of a command, in order, when the running root is `current`. */
  function WritesOf(c: Command, current: Slot): seq<Write> {
    match c
    case SetTry(s) => [SetNext(s), ResetAttempts]
    case Commit(s) => [SetSaved(s), UnsetNext, MarkSuccess]
    case Rollback => [SetSaved(Other(current)), UnsetNext, MarkSuccess]
  }

  /** The slot that boots when no trial is pending: `saved_entry`, or slot A when it is empty. */
  function Committed(env: GrubEnv): Slot {
    if env.savedEntry.Some? then env.savedEntry.value else A
  }

  /** The default that `grub.cfg` selects, and the environment it saves before booting it. */
  function GrubSelect(env: GrubEnv): (Slot, GrubEnv) {
    if env.nextEntry.Some? then (env.nextEntry.value, env.(nextEntry := None)) else (Committed(env), env)
  }

  // ---- the tool --------------------------------------------------------------------------------

  /** `airwaves-slot-manager` on the slot it runs from. */
  class SlotManager {
    const current: Slot
    var env: GrubEnv

    constructor (current: Slot, env: GrubEnv)
      ensures this.current == current && this.env == env
    {
      this.current, this.env := current, env;
    }

    method X86SetTry(slot: Slot)
      modifies this
      ensures env == AllWritten(old(env), WritesOf(SetTry(slot), current))
      ensures Committed(env) == Committed(old(env)) && GrubSelect(env).0 == slot
    {
      env := env.(nextEntry := Some(slot));
      env := env.(bootAttempts := Some("0"));
      Unfold3(old(env), WritesOf(SetTry(slot), current));
    }

    method X86Commit(slot: Slot)
      modifies this
      ensures env == AllWritten(old(env), WritesOf(Commit(slot), current))
      ensures GrubSelect(env) == (slot, env)
    {
      env := env.(savedEntry := Some(slot));
      env := env.(nextEntry := None);
      env := env.(bootSuccess := Some("1"));
      Unfold3(old(env), WritesOf(Commit(slot), current));
    }

    method DoRollback()
      modifies this
      ensures env == AllWritten(old(env), WritesOf(Rollback, current))
      ensures GrubSelect(env) == (Other(current), env)
    {
      X86Commit(Other(current));
    }
  }

  lemma Unfold3(env: GrubEnv, ws: seq<Write>)
    requires |ws| <= 3
    ensures |ws| == 0 ==> AllWritten(env, ws) == env
    ensures |ws| == 1 ==> AllWritten(env, ws) == Written(env, ws[0])
    ensures |ws| == 2 ==> AllWritten(env, ws) == Written(Written(env, ws[0]), ws[1])
    ensures |ws| == 3 ==> AllWritten(env, ws) == Written(Written(Written(env, ws[0]), ws[1]), ws[2])
  {
    if ws != [] {
      var e, rest := Written(env, ws[0]), ws[1..];
      assert AllWritten(env, ws) == AllWritten(e, rest);
      if rest != [] {
        assert AllWritten(e, rest) == AllWritten(Written(e, rest[0]), rest[1..]);
        if rest[1..] != [] {
          assert rest[1..][1..] == [];
        }
      }
    }
  }

  // ---- runs of a machine -----------------------------------------------------------------------

  datatype Power = Off | Selected(slot: Slot) | Up(slot: Slot)

  /** The machine, with the writes of a command that is still in progress. */
  datatype Machine = Machine(env: GrubEnv, power: Power, pending: seq<Write>)

  /** `PowerLoss` also stands for a reboot, a failed boot and a watchdog reset. */
  datatype Step = Issue(command: Command) | WriteOne | PowerLoss | Boot | KernelUp

  predicate Enabled(m: Machine, step: Step) {
    match step
    case Issue(_) => m.power.Up? && m.pending == []
    case WriteOne => m.power.Up? && m.pending != []
    case PowerLoss => !m.power.Off?
    case Boot => m.power.Off?
    case KernelUp => m.power.Selected?
  }

  function Next(m: Machine, step: Step): Machine
    requires Enabled(m, step)
  {
    match step
    case Issue(c) => m.(pending := WritesOf(c, m.power.slot))
    case WriteOne => m.(env := Written(m.env, m.pending[0]), pending := m.pending[1..])
    case PowerLoss => m.(power := Off, pending := [])
    case Boot => m.(env := GrubSelect(m.env).1, power := Selected(GrubSelect(m.env).0))
    case KernelUp => m.(power := Up(m.power.slot))
  }

  predicate Possible(m: Machine, steps: seq<Step>)
    decreases |steps|
  {
    steps == [] || (Enabled(m, steps[0]) && Possible(Next(m, steps[0]), steps[1..]))
  }

  function Run(m: Machine, steps: seq<Step>): Machine
    requires Possible(m, steps)
    decreases |steps|
  {
    if steps == [] then m else Run(Next(m, steps[0]), steps[1..])
  }

  /** Boots of a slot other than the committed one. */
  function TrialBoots(m: Machine, steps: seq<Step>): nat
    requires Possible(m, steps)
    decreases |steps|
  {
    if steps == [] then 0
    else
      var trial := if steps[0].Boot? && GrubSelect(m.env).0 != Committed(m.env) then 1 else 0;
      trial + TrialBoots(Next(m, steps[0]), steps[1..])
  }

  /** Trials that reached the grubenv: first writes of a set-try. */
  function TrialsSet(m: Machine, steps: seq<Step>): nat
    requires Possible(m, steps)
    decreases |steps|
  {
    if steps == [] then 0
    else
      (if steps[0].WriteOne? && m.pending[0].SetNext? then 1 else 0) + TrialsSet(Next(m, steps[0]), steps[1..])
  }

  function PendingTrial(m: Machine): nat {
    if m.env.nextEntry.Some? then 1 else 0
  }

  function SetTriesIssued(steps: seq<Step>): nat {
    if steps == [] then 0
    else (if steps[0].Issue? && steps[0].command.SetTry? then 1 else 0) + SetTriesIssued(steps[1..])
  }

  lemma {:induction false} SetTriesInParts(front: seq<Step>, back: seq<Step>)
    ensures SetTriesIssued(front + back) == SetTriesIssued(front) + SetTriesIssued(back)
  {
    if front == [] {
      assert front + back == back;
    } else {
      assert (front + back)[1..] == front[1..] + back;
      SetTriesInParts(front[1..], back);
    }
  }

  lemma OneSetTry(step: Step)
    ensures SetTriesIssued([]) == 0
    ensures SetTriesIssued([step]) == if step.Issue? && step.command.SetTry? then 1 else 0
  {
    assert [step][1..] == [];
  }

  function TrialWrites(ws: seq<Write>): nat {
    if ws == [] then 0 else (if ws[0].SetNext? then 1 else 0) + TrialWrites(ws[1..])
  }

  lemma CommandTrialWrites(c: Command, current: Slot)
    ensures TrialWrites(WritesOf(c, current)) == if c.SetTry? then 1 else 0
  {
    var ws := WritesOf(c, current);
    assert TrialWrites(ws[2..]) == 0 by {
      assert |ws| == 3 ==> ws[2..][1..] == [];
    }
    assert ws[1..][1..] == ws[2..];
  }

  /** Each trial that reaches the grubenv comes from its own set-try command. */
  lemma {:induction false} TrialsComeFromSetTries(m: Machine, steps: seq<Step>)
    requires Possible(m, steps)
    ensures TrialsSet(m, steps) <= SetTriesIssued(steps) + TrialWrites(m.pending)
    decreases |steps|
  {
    if steps != [] {
      TrialsComeFromSetTries(Next(m, steps[0]), steps[1..]);
      if steps[0].Issue? {
        CommandTrialWrites(steps[0].command, m.power.slot);
      }
    }
  }

  /** Over every run, with power loss anywhere, each set-try causes at most one boot of a slot that is not committed. */
  lemma TrialsAreOneShot(m: Machine, steps: seq<Step>)
    requires Possible(m, steps)
    ensures TrialBoots(m, steps) <= SetTriesIssued(steps) + TrialWrites(m.pending) + PendingTrial(m)
  {
    TrialBootsAreBounded(m, steps);
    TrialsComeFromSetTries(m, steps);
  }

  lemma {:induction false} TrialBootsAreBounded(m: Machine, steps: seq<Step>)
    requires Possible(m, steps)
    ensures TrialBoots(m, steps) <= TrialsSet(m, steps) + PendingTrial(m)
    decreases |steps|
  {
    if steps != [] {
      TrialBootsAreBounded(Next(m, steps[0]), steps[1..]);
    }
  }

  predicate NoWrites(steps: seq<Step>) {
    forall s | s in steps :: !s.WriteOne?
  }

  lemma {:induction false} QuietBootsAreCommitted(m: Machine, steps: seq<Step>)
    requires Possible(m, steps) && NoWrites(steps) && m.env.nextEntry.None?
    ensures TrialBoots(m, steps) == 0 && Run(m, steps).env == m.env
    decreases |steps|
  {
    if steps != [] {
      assert steps[0] in steps && forall s | s in steps[1..] :: s in steps;
      QuietBootsAreCommitted(Next(m, steps[0]), steps[1..]);
    }
  }

  /** After any boot, every later boot selects the committed slot until something is written again. */
  lemma SecondBootIsCommitted(m: Machine, steps: seq<Step>)
    requires m.power.Off? && Possible(Next(m, Boot), steps) && NoWrites(steps)
    ensures TrialBoots(Next(m, Boot), steps) == 0
    ensures Committed(Run(Next(m, Boot), steps).env) == Committed(m.env)
    ensures GrubSelect(Run(Next(m, Boot), steps).env).0 == Committed(m.env)
  {
    QuietBootsAreCommitted(Next(m, Boot), steps);
  }

  /** The grubenv after the first `k` writes of a command. */
  function Interrupted(env: GrubEnv, c: Command, current: Slot, k: nat): GrubEnv
    requires k <= |WritesOf(c, current)|
  {
    AllWritten(env, WritesOf(c, current)[..k])
  }

  /** A commit cut short leaves the old slot committed before its first write and the new one after it. */
  lemma InterruptedCommit(env: GrubEnv, slot: Slot, current: Slot, k: nat)
    requires k <= |WritesOf(Commit(slot), current)|
    ensures Committed(Interrupted(env, Commit(slot), current, k)) == if k == 0 then Committed(env) else slot
    ensures Interrupted(env, Commit(slot), current, k).nextEntry == if k < 2 then env.nextEntry else None
  {
    Unfold3(env, WritesOf(Commit(slot), current)[..k]);
  }

  /** A set-try cut short never touches the committed slot. */
  lemma InterruptedSetTry(env: GrubEnv, slot: Slot, current: Slot, k: nat)
    requires k <= |WritesOf(SetTry(slot), current)|
    ensures Committed(Interrupted(env, SetTry(slot), current, k)) == Committed(env)
    ensures Interrupted(env, SetTry(slot), current, k).nextEntry == if k == 0 then env.nextEntry else Some(slot)
  {
    Unfold3(env, WritesOf(SetTry(slot), current)[..k]);
  }

  /** A completed rollback keeps the committed slot exactly when the running slot is not the committed one, a trial. */
  lemma RollbackRestoresExactlyFromATrial(env: GrubEnv, current: Slot)
    ensures var after := AllWritten(env, WritesOf(Rollback, current));
      && GrubSelect(after).0 == Other(current)
      && (Committed(after) == Committed(env) <==> current != Committed(env))
  {
    Unfold3(env, WritesOf(Rollback, current));
  }

  lemma Chain(m: Machine, step: Step, rest: seq<Step>)
    requires Enabled(m, step) && Possible(Next(m, step), rest)
    ensures Possible(m, [step] + rest) && Run(m, [step] + rest) == Run(Next(m, step), rest)
  {
  }

  lemma Only(m: Machine, step: Step)
    requires Enabled(m, step)
    ensures Possible(m, [step]) && Run(m, [step]) == Next(m, step)
  {
  }

  /** Issuing a command on an idle running machine and letting it finish performs all its writes. */
  lemma {:induction false} CommandCompletes(m: Machine, slot: Slot, rest: seq<Step>)
    requires m.power == Up(slot) && Possible(m.(env := AllWritten(m.env, m.pending), pending := []), rest)
    ensures var writes := seq(|m.pending|, i => WriteOne);
      Possible(m, writes + rest)
        && Run(m, writes + rest) == Run(m.(env := AllWritten(m.env, m.pending), pending := []), rest)
    decreases |m.pending|
  {
    var writes := seq(|m.pending|, i => WriteOne);
    if m.pending == [] {
      assert writes + rest == rest;
    } else {
      var fewer := seq(|m.pending| - 1, i => WriteOne);
      CommandCompletes(Next(m, WriteOne), slot, rest);
      Chain(m, WriteOne, fewer + rest);
      assert writes + rest == [WriteOne] + (fewer + rest);
    }
  }

  /** Boot, roll back from what came up, and reboot. */
  function TrialThenRollback(): seq<Step> {
    [Boot] + ([KernelUp] + ([Issue(Rollback)] + (seq(3, i => WriteOne) + ([PowerLoss] + [Boot]))))
  }

  /** Booting a pending trial, rolling back and rebooting selects the slot that was committed before the trial. */
  lemma TrialRolledBack(m: Machine)
    requires m.power.Off? && m.pending == [] && m.env.nextEntry == Some(Other(Committed(m.env)))
    ensures Possible(m, TrialThenRollback())
    ensures Run(m, TrialThenRollback()).power == Selected(Committed(m.env))
  {
    hide AllWritten, Possible, Run;
    var m1 := Next(m, Boot);
    var m2 := Next(m1, KernelUp);
    var m3 := Next(m2, Issue(Rollback));
    var m6 := m3.(env := AllWritten(m3.env, m3.pending), pending := []);
    Unfold3(m3.env, m3.pending);
    var m7 := Next(m6, PowerLoss);
    Only(m7, Boot);
    Chain(m6, PowerLoss, [Boot]);
    CommandCompletes(m3, m2.power.slot, [PowerLoss] + [Boot]);
    var t3 := seq(3, i => WriteOne) + ([PowerLoss] + [Boot]);
    Chain(m2, Issue(Rollback), t3);
    Chain(m1, KernelUp, [Issue(Rollback)] + t3);
    Chain(m, Boot, [KernelUp] + ([Issue(Rollback)] + t3));
  }
}
