/**
 Unattended installation: the destructive gate of `airwaves-preconfig`, the disk list and preflight of
 `airwaves-install`, and the console that consumes the trigger, over boots with disks appearing, vanishing and changing
 names.
 */
module Unattended {
  import opened Values
  import opened Text
  import opened ConfigBackup

  // ---- the config partition --------------------------------------------------------------------

  /** What the shell's command substitution keeps of a printed string. */
  function Captured(s: string): string {
    if s != "" && s[|s| - 1] == '\n' then Captured(s[..|s| - 1]) else s
  }

  /** `[ "$(jq -r '.key // false')" = "true" ]`. */
  predicate FlagTrue(cfg: Json, key: string) {
    match Member(cfg, key)
    case Some(Bool(b)) => b
    case Some(Str(s)) => Captured(s) == "true"
    case _ => false
  }

  /** The target selector, with the fallbacks of the script. */
  function WantedTarget(cfg: Json): string {
    match Member(cfg, "target")
    case None => "auto"
    case Some(Null) => "auto"
    case Some(Bool(false)) => "auto"
    case Some(Str(s)) => if Captured(s) == "" || Captured(s) == "null" then "auto" else Captured(s)
    case Some(_) => "?"
  }

  /** jq's recursive merge `a * b` of two objects. */
  function Merged(a: Json, b: Json): Json
    decreases b
  {
    if a.Obj? && b.Obj? then
      Obj(map k | k in a.members.Keys + b.members.Keys ::
        if k in b.members then (if k in a.members then Merged(a.members[k], b.members[k]) else b.members[k])
        else a.members[k])
    else b
  }

  function Provisioning(install: Json): Json {
    var wifi := OrNull(Member(install, "wifi"));
    Obj(map[
      "hostname" := OrElse(install, "hostname", Str("")),
      "wifi" := Obj(map["ssid" := OrElse(wifi, "ssid", Str("")), "psk" := OrElse(wifi, "psk", Str(""))]),
      "channel" := OrElse(install, "channel", Str("")),
      "timezone" := OrElse(install, "timezone", Str("")),
      "ssh_keys" := OrElse(install, "ssh_keys", Arr([]))])
  }

  /** jq's `//`. */
  function OrElse(v: Json, key: string, default: Json): Json {
    match Member(v, key)
    case None => default
    case Some(Null) => default
    case Some(Bool(false)) => default
    case Some(x) => x
  }

  const DESTRUCTIVE_KEYS: set<string> := {"auto_install", "confirm_destructive", "self_install"}

  /** What `jq -e .` fails on. */
  predicate IsNothing(v: Json) {
    v.Null? || v == Bool(false)
  }

  /** `build_target_awcfg_config`; the last jq fails, and passes its input on, when the template is no object. */
  function TargetConfig(template: Json, install: Option<Json>): Json {
    var base := if IsNothing(template) then Obj(map[]) else template;
    var j := if install.Some? && !IsNothing(install.value) && base.Obj? then Merged(base, Provisioning(install.value))
             else base;
    if j.Obj? then
      Obj(j.members["auto_install" := Bool(false)]["confirm_destructive" := Bool(false)]["self_install" := Bool(false)])
    else j
  }

  /** Whatever the template and the provisioning config say, an installed system's own config arms nothing. */
  lemma InstalledConfigArmsNothing(template: Json, install: Option<Json>, key: string)
    requires key in DESTRUCTIVE_KEYS
    ensures !FlagTrue(TargetConfig(template, install), key)
  {
  }

  /** What the provisioning config states under a key: neither absent, nor null, nor false. */
  predicate States(install: Json, key: string, v: Json) {
    Member(install, key) == Some(v) && !IsNothing(v)
  }

  predicate StatesNothing(install: Json, key: string) {
    Member(install, key).None? || IsNothing(Member(install, key).value)
  }

  const PLAIN_KEYS: set<string> := {"hostname", "channel", "timezone", "ssh_keys"}

  lemma KeysApart()
    ensures DESTRUCTIVE_KEYS !! PLAIN_KEYS && "wifi" !in DESTRUCTIVE_KEYS && "wifi" !in PLAIN_KEYS
    ensures "hostname" != "channel" && "hostname" != "timezone" && "hostname" != "ssh_keys" && "channel" != "timezone"
    ensures "channel" != "ssh_keys" && "timezone" != "ssh_keys"
  {
    assert "hostname"[0] == 'h' && "channel"[0] == 'c' && "timezone"[0] == 't' && "ssh_keys"[1] == 's'
      && "wifi"[0] == 'w';
    assert "ssh_keys"[0] == 's' && "auto_install"[0] == 'a' && "confirm_destructive"[1] == 'o'
      && "self_install"[1] == 'e';
    assert "channel"[1] == 'h' && "confirm_destructive"[0] == 'c' && "self_install"[0] == 's';
  }

  lemma MergedMember(a: Json, b: Json, k: string)
    requires a.Obj? && b.Obj?
    ensures Merged(a, b).Obj?
    ensures Member(Merged(a, b), k) ==
      if k in b.members then Some(Merged(OrNull(Member(a, k)), b.members[k])) else Member(a, k)
  {
  }

  lemma ProvisionedMember(install: Json, k: string)
    ensures Provisioning(install).Obj?
    ensures k in Provisioning(install).members <==> k in PLAIN_KEYS || k == "wifi"
    ensures k in PLAIN_KEYS ==>
      Provisioning(install).members[k] == OrElse(install, k, if k == "ssh_keys" then Arr([]) else Str(""))
  {
    hide OrElse;
    KeysApart();
  }

  lemma ProvisionedWifi(install: Json)
    ensures Provisioning(install).Obj? && "wifi" in Provisioning(install).members
    ensures var wifi := OrNull(Member(install, "wifi"));
      Provisioning(install).members["wifi"] ==
        Obj(map["ssid" := OrElse(wifi, "ssid", Str("")), "psk" := OrElse(wifi, "psk", Str(""))])
  {
    hide OrElse;
    KeysApart();
  }

  lemma TargetMember(template: Json, install: Json, k: string)
    requires template.Obj? && !IsNothing(install) && k !in DESTRUCTIVE_KEYS
    ensures Member(TargetConfig(template, Some(install)), k) == Member(Merged(template, Provisioning(install)), k)
  {
    hide Provisioning, Merged;
    ProvisionedMember(install, k);
    MergedMember(template, Provisioning(install), k);
  }

  /** What `//` leaves of one setting. */
  lemma StatedSetting(install: Json, key: string, default: Json)
    ensures forall v | States(install, key, v) :: OrElse(install, key, default) == v
    ensures StatesNothing(install, key) ==> OrElse(install, key, default) == default
  {
  }

  /**
   What the installed system's own config takes from where: host name, channel, time zone and keys are the provisioned
   ones, or cleared; every other setting but Wi-Fi and the destructive flags is the template's.
   */
  lemma InstalledConfigSettings(template: Json, install: Json, key: string, v: Json)
    requires template.Obj? && !IsNothing(install) && key !in DESTRUCTIVE_KEYS && key != "wifi"
    ensures var r := TargetConfig(template, Some(install));
      && (key in PLAIN_KEYS && States(install, key, v) ==>
            Member(r, key) == Some(if v.Obj? then Merged(OrNull(Member(template, key)), v) else v))
      && (key in PLAIN_KEYS && StatesNothing(install, key) ==>
            Member(r, key) == Some(if key == "ssh_keys" then Arr([]) else Str("")))
      && (key !in PLAIN_KEYS ==> Member(r, key) == Member(template, key))
  {
    hide Provisioning, OrElse, States, StatesNothing, TargetConfig, IsNothing;
    KeysApart();
    TargetMember(template, install, key);
    ProvisionedMember(install, key);
    MergedMember(template, Provisioning(install), key);
    StatedSetting(install, key, if key == "ssh_keys" then Arr([]) else Str(""));
  }

  /** Wi-Fi name and password are the provisioned ones, or cleared, and other Wi-Fi settings stay the template's. */
  lemma InstalledConfigWifi(template: Json, install: Json, key: string, v: Json)
    requires template.Obj? && !IsNothing(install)
    ensures var r := OrNull(Member(TargetConfig(template, Some(install)), "wifi"));
      && ((key == "ssid" || key == "psk") && States(OrNull(Member(install, "wifi")), key, v) && !v.Obj? ==>
            Member(r, key) == Some(v))
      && ((key == "ssid" || key == "psk") && StatesNothing(OrNull(Member(install, "wifi")), key) ==>
            Member(r, key) == Some(Str("")))
      && (key != "ssid" && key != "psk" ==> Member(r, key) == Member(OrNull(Member(template, "wifi")), key))
  {
    hide Provisioning, OrElse, States, StatesNothing, TargetConfig, IsNothing;
    KeysApart();
    assert "psk"[0] == 'p' && "ssid"[0] == 's';
    var stated := OrNull(Member(install, "wifi"));
    TargetMember(template, install, "wifi");
    ProvisionedWifi(install);
    MergedMember(template, Provisioning(install), "wifi");
    StatedSetting(stated, key, Str(""));
    var mine, theirs := OrNull(Member(template, "wifi")), Provisioning(install).members["wifi"];
    if mine.Obj? {
      MergedMember(mine, theirs, key);
    }
  }

  /** Without a provisioning config, or with a null one, every setting but the destructive flags is the template's. */
  lemma InstalledConfigIsTemplate(template: Json, install: Option<Json>, key: string)
    requires (install.Some? ==> IsNothing(install.value)) && key !in DESTRUCTIVE_KEYS
    ensures Member(TargetConfig(template, install), key) == Member(template, key)
  {
  }

  // ---- disks -----------------------------------------------------------------------------------

  /** A physical disk, whatever name it has at the moment. */
  type DiskId = nat

  /**
   Live media boot into memory, so their marker never persists; `awcfg` is the content of the config partition.
   */
  datatype Disk = Disk(removable: bool, whole: bool, mounted: bool, size: nat, live: bool, initialized: bool,
      awcfg: Option<Json>)

  datatype Mode = UsbUnattended | SdSelfInstall

  /** `gate` is the config that passed the gate (the copy next to the trigger). */
  datatype Trigger = Trigger(target: string, mode: Mode, gate: Json)

  /**
   How far the console is: counting down after it has found disk `checked` under the target's name; in the installer
   after preflight has found disk `passed` under it; or past the erase of a disk.
   */
  datatype Stage =
    | Idle
    | Pausing(checked: DiskId)
    | Passed(checked: DiskId, passed: DiskId)
    | Installing(erased: DiskId)

  /** `names` are the device names of the disks that are connected. */
  datatype World = World(disks: map<DiskId, Disk>, names: map<string, DiskId>, x86: bool, template: Json,
                         booted: Option<DiskId>, trigger: Option<Trigger>, stage: Stage)

  predicate SkippedName(name: string) {
    exists p | p in ["/dev/sr", "/dev/loop", "/dev/ram", "/dev/zram", "/dev/fd", "/dev/dm-", "/dev/md", "/dev/nbd"] ::
      p <= name
  }

  predicate Present(w: World, name: string) {
    name in w.names && w.names[name] in w.disks
  }

  function DiskAt(w: World, name: string): Disk
    requires Present(w, name)
  {
    w.disks[w.names[name]]
  }

  predicate Connected(w: World, d: DiskId) {
    d in w.disks && d in w.names.Values
  }

  predicate Running(w: World) {
    w.booted.Some? && w.booted.value in w.disks
  }

  /** The source disk can be resolved while it is connected. */
  predicate SourceKnown(w: World) {
    Running(w) && Connected(w, w.booted.value)
  }

  predicate IsSource(w: World, name: string) {
    name in w.names && w.booted == Some(w.names[name])
  }

  predicate FirstSetup(w: World) {
    Running(w) && (w.disks[w.booted.value].live || !w.disks[w.booted.value].initialized)
  }

  /** Discovery fails, and nothing is listed, unless the source is known or the live medium runs from memory. */
  predicate Discovered(w: World) {
    Running(w) && (SourceKnown(w) || w.disks[w.booted.value].live)
  }

  predicate Listed(w: World, name: string) {
    Discovered(w) && Present(w, name) && !DiskAt(w, name).removable && DiskAt(w, name).whole && !IsSource(w, name)
      && !SkippedName(name)
  }

  /** `list_targets_json` over the rows of lsblk. */
  method ListTargets(w: World, rows: seq<string>) returns (targets: seq<string>)
    requires (forall n :: n in rows <==> Present(w, n)) && forall i, j | 0 <= i < j < |rows| :: rows[i] != rows[j]
    ensures forall n :: n in targets <==> Listed(w, n)
    ensures forall i, j | 0 <= i < j < |targets| :: targets[i] != targets[j]
  {
    targets := [];
    if !Discovered(w) {
      return;
    }
    hide SkippedName;
    for i := 0 to |rows|
      invariant forall n :: n in targets <==> n in rows[..i] && Listed(w, n)
      invariant forall a, b | 0 <= a < b < |targets| :: targets[a] != targets[b]
    {
      assert rows[i] in rows;
      if DiskAt(w, rows[i]).whole && !DiskAt(w, rows[i]).removable && !IsSource(w, rows[i]) && !SkippedName(rows[i]) {
        assert rows[i] !in targets by { assert forall k | 0 <= k < i :: rows[k] != rows[i]; }
        targets := targets + [rows[i]];
      }
    }
    assert rows[..|rows|] == rows;
  }

  /** What a selector may resolve to: exactly one candidate, the largest, or a listed path. */
  predicate Resolves(w: World, want: string, name: string) {
    && Listed(w, name)
    && (want == "auto" ==> forall e | e in w.names && Listed(w, e) :: e == name)
    && (want == "largest" ==>
          DiskAt(w, name).size > 0 && forall e | e in w.names && Listed(w, e) ::
            DiskAt(w, e).size <= DiskAt(w, name).size)
    && (want == "auto" || want == "largest" || ("/dev/" <= want && name == want))
  }

  /** `resolve_target` on a listing: a best-so-far loop for "largest". */
  method ResolveTarget(w: World, targets: seq<string>, want: string) returns (r: Option<string>)
    requires (forall n :: n in targets <==> Listed(w, n)) && forall i, j | 0 <= i < j < |targets| ::
      targets[i] != targets[j]
    ensures r.Some? ==> Resolves(w, want, r.value)
    ensures r.None? ==> forall n :: !Resolves(w, want, n)
  {
    hide SkippedName;
    SelectorsDiffer();
    if want == "auto" {
      if |targets| != 1 {
        if |targets| > 1 {
          assert targets[0] in targets && targets[1] in targets && targets[0] != targets[1];
        }
        return None;
      }
      assert targets[0] in targets;
      return Some(targets[0]);
    }
    if want == "largest" {
      r := None;
      var bestSize := 0;
      for i := 0 to |targets|
        invariant forall j | 0 <= j < i :: Present(w, targets[j]) && DiskAt(w, targets[j]).size <= bestSize
        invariant r.None? ==> bestSize == 0
        invariant r.Some? ==> r.value in targets && Present(w, r.value) && DiskAt(w, r.value).size == bestSize > 0
      {
        assert targets[i] in targets;
        if DiskAt(w, targets[i]).size > bestSize {
          bestSize := DiskAt(w, targets[i]).size;
          r := Some(targets[i]);
        }
      }
      return;
    }
    if "/dev/" <= want && want in targets {
      return Some(want);
    }
    return None;
  }

  lemma SelectorsDiffer()
    ensures "auto" != "largest" && !("/dev/" <= "auto") && !("/dev/" <= "largest")
  {
    assert "auto"[0] == 'a' && "largest"[0] == 'l' && "/dev/"[0] == '/';
  }

  // ---- the gate --------------------------------------------------------------------------------

  /** Dual key, known source, matching boot medium; self-install is ignored on x86. */
  function GateMode(w: World, cfg: Json): Option<Mode> {
    var auto, self := FlagTrue(cfg, "auto_install"), FlagTrue(cfg, "self_install");
    if !FirstSetup(w) || !(auto || self) || !FlagTrue(cfg, "confirm_destructive") || !SourceKnown(w) then None
    else
      var removable := w.disks[w.booted.value].removable;
      if auto && removable then Some(UsbUnattended)
      else if self && !removable && !w.x86 then Some(SdSelfInstall)
      else None
  }

  // ---- runs ------------------------------------------------------------------------------------

  datatype Step =
    | Plug(disk: DiskId, name: string)            // the kernel may give a disk any free name
    | Unplug(name: string)
    | Mount(disk: DiskId, on: bool)
    | Boot(disk: DiskId)
    | Shutdown
    | Preconfig(awcfg: DiskId, target: string)    // the disk whose AWCFG is found, and what the selector resolves to
    | InitDone                                    // airwaves-init marks the booted system
    | Revalidate                                  // the console looks for the target in the list, then counts down
    | GiveUp                                      // the operator cancels, or the installer fails
    | Preflight                                   // the countdown is over and the installer checks the target
    | Erase
    | Finish(payloadWritten: bool)

  predicate Enabled(w: World, step: Step) {
    match step
    case Plug(d, n) => d in w.disks && d !in w.names.Values && n !in w.names
    case Unplug(n) => n in w.names
    case Mount(d, _) => Connected(w, d)
    case Boot(d) => w.booted.None? && Connected(w, d)
    case Shutdown => w.booted.Some?
    case Preconfig(a, t) => w.booted.Some? && w.trigger.None? && Connected(w, a) && w.disks[a].awcfg.Some?
    case InitDone => Running(w) && !w.disks[w.booted.value].live
    case Revalidate => w.booted.Some? && w.trigger.Some? && w.stage.Idle?
    case GiveUp => !w.stage.Idle?
    case Preflight => w.booted.Some? && w.trigger.Some? && w.stage.Pausing?
    case Erase => w.booted.Some? && w.trigger.Some? && w.stage.Passed? && Present(w, w.trigger.value.target)
    case Finish(_) => w.booted.Some? && w.trigger.Some? && w.stage.Installing? && Connected(w, w.stage.erased)
  }

  /** The installer's own guards: they do not look at `removable`. */
  predicate PreflightPasses(w: World, name: string) {
    Discovered(w) && Present(w, name) && !IsSource(w, name) && DiskAt(w, name).whole && !DiskAt(w, name).mounted
  }

  function Stopped(w: World): World {
    w.(booted := None, trigger := None, stage := Idle)
  }

  function Dropped(w: World): World {
    w.(trigger := None, stage := Idle)
  }

  function WithDisk(w: World, d: DiskId, disk: Disk): World {
    w.(disks := w.disks[d := disk])
  }

  /** The anti-loop marker on the running system's own disk. */
  function Marked(w: World): World {
    if Running(w) && !w.disks[w.booted.value].live
    then WithDisk(w, w.booted.value, w.disks[w.booted.value].(initialized := true)) else w
  }

  function Taken(w: World, step: Step): World
    requires Enabled(w, step)
  {
    match step
    case Plug(d, n) => w.(names := w.names[n := d])
    case Unplug(n) =>
      var v := w.(names := w.names - {n});
      if IsSource(w, n) && Running(w) && !w.disks[w.booted.value].live then Stopped(v) else v
    case Mount(d, on) => WithDisk(w, d, w.disks[d].(mounted := on))
    case Boot(d) => Stopped(w).(booted := Some(d))
    case Shutdown => Stopped(w)
    case Preconfig(a, t) =>
      var cfg := w.disks[a].awcfg.value;
      if GateMode(w, cfg).Some? && Resolves(w, WantedTarget(cfg), t)
      then w.(trigger := Some(Trigger(t, GateMode(w, cfg).value, cfg)), stage := Idle) else w
    case InitDone => Marked(w)
    case Revalidate =>
      var t := w.trigger.value.target;
      if Listed(w, t) then w.(stage := Pausing(w.names[t])) else Dropped(w)
    case GiveUp => Dropped(w)
    case Preflight =>
      var t := w.trigger.value.target;
      if PreflightPasses(w, t) then w.(stage := Passed(w.stage.checked, w.names[t])) else Dropped(w)
    case Erase =>
      var d := w.names[w.trigger.value.target];
      WithDisk(w, d, w.disks[d].(initialized := false, awcfg := None)).(stage := Installing(d))
    case Finish(payloadWritten) =>
      var payload := if payloadWritten then Some(TargetConfig(w.template, Some(w.trigger.value.gate))) else None;
      var v := WithDisk(w, w.stage.erased, w.disks[w.stage.erased].(initialized := false, awcfg := payload));
      Stopped(if w.trigger.value.mode.SdSelfInstall? then Marked(v) else v)
  }

  /** A step that is not enabled does not happen, so every list of steps is a run. */
  function Next(w: World, step: Step): World {
    if Enabled(w, step) then Taken(w, step) else w
  }

  function Run(w: World, steps: seq<Step>): World {
    if steps == [] then w else Next(Run(w, steps[..|steps| - 1]), steps[|steps| - 1])
  }

  lemma RunSnoc(w: World, front: seq<Step>, step: Step)
    ensures Run(w, front + [step]) == Next(Run(w, front), step)
  {
    assert (front + [step])[..|front|] == front;
  }

  lemma RunLast(w: World, steps: seq<Step>)
    ensures if steps == [] then Run(w, steps) == w
      else Run(w, steps) == Next(Run(w, steps[..|steps| - 1]), steps[|steps| - 1])
  {
  }

  lemma Prefix(steps: seq<Step>, k: nat)
    requires k < |steps|
    ensures steps[..|steps| - 1][..k] == steps[..k]
  {
  }

  /** The machine has booted nothing and nothing is armed. */
  predicate Quiet(w: World) {
    w.booted.None? && w.trigger.None? && w.stage.Idle?
  }

  // ---- what is erased --------------------------------------------------------------------------

  /** The step passes the gate in this world, and leaves this trigger. */
  predicate Arms(w: World, step: Step, t: Trigger) {
    && step.Preconfig? && Enabled(w, step) && w.disks[step.awcfg].awcfg == Some(t.gate)
    && GateMode(w, t.gate) == Some(t.mode) && t.target == step.target && Resolves(w, WantedTarget(t.gate), t.target)
  }

  lemma TriggerStep(w: World, step: Step)
    requires Next(w, step).trigger.Some?
    ensures w.trigger.None? ==>
      Arms(w, step, Next(w, step).trigger.value) && Next(w, step) == w.(trigger := Next(w, step).trigger, stage := Idle)
    ensures w.trigger.Some? ==> Next(w, step).trigger == w.trigger
    ensures Next(w, step).booted == w.booted
  {
    hide Listed, Resolves, GateMode, WantedTarget, TargetConfig;
  }

  /** The step of a run that armed the trigger that is armed now; the boot has been the same since. */
  ghost function ArmedAt(w: World, steps: seq<Step>): (k: nat)
    requires w.trigger.None? && Run(w, steps).trigger.Some?
    ensures k < |steps| && Run(w, steps[..k]).trigger.None?
      && Arms(Run(w, steps[..k]), steps[k], Run(w, steps).trigger.value)
    ensures Run(w, steps[..k]).booted == Run(w, steps).booted
  {
    hide Arms, Next, Run;
    RunLast(w, steps);
    var front := steps[..|steps| - 1];
    TriggerStep(Run(w, front), steps[|steps| - 1]);
    if Run(w, front).trigger.None? then |steps| - 1
    else
      var k := ArmedAt(w, front);
      Prefix(steps, k);
      k
  }

  /** In world `v`, of the same boot and trigger, the target's name denoted the disk that the stage calls checked. */
  predicate FoundInList(v: World, now: World) {
    && v.trigger.Some? && v.trigger == now.trigger && v.booted == now.booted
    && (now.stage.Pausing? || now.stage.Passed?)
    && Listed(v, v.trigger.value.target) && v.names[v.trigger.value.target] == now.stage.checked
  }

  predicate FoundByPreflight(v: World, now: World) {
    && v.trigger.Some? && v.trigger == now.trigger && v.booted == now.booted && now.stage.Passed?
    && v.stage == Pausing(now.stage.checked)
    && PreflightPasses(v, v.trigger.value.target) && v.names[v.trigger.value.target] == now.stage.passed
  }

  lemma FoundStep(v: World, w: World, step: Step)
    ensures (Next(w, step).stage.Pausing? || Next(w, step).stage.Passed?) && !(w.stage.Pausing? || w.stage.Passed?) ==>
      FoundInList(w, Next(w, step))
    ensures FoundInList(v, w) && (Next(w, step).stage.Pausing? || Next(w, step).stage.Passed?) ==>
      FoundInList(v, Next(w, step))
    ensures Next(w, step).stage.Passed? && !w.stage.Passed? ==> FoundByPreflight(w, Next(w, step))
    ensures FoundByPreflight(v, w) && Next(w, step).stage.Passed? ==> FoundByPreflight(v, Next(w, step))
  {
    hide Listed, Resolves, GateMode, WantedTarget, TargetConfig, PreflightPasses;
  }

  /** The step at which the console found the target in the list. */
  ghost function RevalidatedAt(w: World, steps: seq<Step>): (k: nat)
    requires w.stage.Idle? && (Run(w, steps).stage.Pausing? || Run(w, steps).stage.Passed?)
    ensures k < |steps| && FoundInList(Run(w, steps[..k]), Run(w, steps))
  {
    hide FoundInList, Next, Run;
    RunLast(w, steps);
    var front := steps[..|steps| - 1];
    if Run(w, front).stage.Pausing? || Run(w, front).stage.Passed? then
      var k := RevalidatedAt(w, front);
      Prefix(steps, k);
      FoundStep(Run(w, steps[..k]), Run(w, front), steps[|steps| - 1]);
      k
    else
      FoundStep(w, Run(w, front), steps[|steps| - 1]);
      |steps| - 1
  }

  /** The step at which the installer's preflight passed. */
  ghost function PreflightAt(w: World, steps: seq<Step>): (k: nat)
    requires w.stage.Idle? && Run(w, steps).stage.Passed?
    ensures k < |steps| && FoundByPreflight(Run(w, steps[..k]), Run(w, steps))
  {
    hide FoundByPreflight, Next, Run;
    RunLast(w, steps);
    var front := steps[..|steps| - 1];
    if Run(w, front).stage.Passed? then
      var k := PreflightAt(w, front);
      Prefix(steps, k);
      FoundStep(Run(w, steps[..k]), Run(w, front), steps[|steps| - 1]);
      k
    else
      FoundStep(w, Run(w, front), steps[|steps| - 1]);
      |steps| - 1
  }

  /** The same disks, built as they were. */
  predicate SameHardware(w: World, v: World) {
    v.disks.Keys == w.disks.Keys && forall d | d in w.disks ::
      && v.disks[d].removable == w.disks[d].removable && v.disks[d].whole == w.disks[d].whole
      && v.disks[d].live == w.disks[d].live
  }

  lemma {:induction false} HardwareStays(w: World, steps: seq<Step>, k: nat)
    requires k <= |steps|
    ensures SameHardware(Run(w, steps[..k]), Run(w, steps))
    decreases |steps|
  {
    if k == |steps| {
      assert steps[..k] == steps;
    } else {
      Prefix(steps, k);
      HardwareStays(w, steps[..|steps| - 1], k);
      HardwareStep(Run(w, steps[..|steps| - 1]), steps[|steps| - 1]);
    }
  }

  predicate TouchesDisk(step: Step) {
    step.Mount? || step.InitDone? || step.Erase? || step.Finish?
  }

  lemma OtherStepsTouchNoDisk(w: World, step: Step)
    requires !TouchesDisk(step)
    ensures Next(w, step).disks == w.disks
  {
    hide Listed, Resolves, GateMode, WantedTarget, PreflightPasses, FlagTrue;
  }

  lemma DiskRewritten(w: World, d: DiskId, disk: Disk)
    requires d in w.disks && disk.removable == w.disks[d].removable && disk.whole == w.disks[d].whole
      && disk.live == w.disks[d].live
    ensures SameHardware(w, WithDisk(w, d, disk))
  {
  }

  lemma MarkedHardware(w: World)
    ensures SameHardware(w, Marked(w))
  {
  }

  lemma SameHardwareAgain(w: World, v: World, u: World)
    requires SameHardware(w, v) && SameHardware(v, u)
    ensures SameHardware(w, u)
  {
  }

  lemma HardwareDepends(w: World, v: World, u: World)
    requires SameHardware(w, v) && u.disks == v.disks
    ensures SameHardware(w, u)
  {
  }

  lemma HardwareStep(w: World, step: Step)
    ensures SameHardware(w, Next(w, step))
  {
    hide Marked, TargetConfig, WithDisk, SameHardware;
    if !TouchesDisk(step) {
      hide Next;
      OtherStepsTouchNoDisk(w, step);
      HardwareDepends(w, w, Next(w, step)) by { SameAsItself(w); }
    } else if Enabled(w, step) {
      match step
      case Mount(d, on) =>
        DiskRewritten(w, d, w.disks[d].(mounted := on));
      case InitDone =>
        MarkedHardware(w);
      case Erase =>
        var d := w.names[w.trigger.value.target];
        var v := WithDisk(w, d, w.disks[d].(initialized := false, awcfg := None));
        DiskRewritten(w, d, w.disks[d].(initialized := false, awcfg := None));
        HardwareDepends(w, v, Next(w, step));
      case Finish(written) =>
        var payload := if written then Some(TargetConfig(w.template, Some(w.trigger.value.gate))) else None;
        var disk := w.disks[w.stage.erased].(initialized := false, awcfg := payload);
        var v := WithDisk(w, w.stage.erased, disk);
        DiskRewritten(w, w.stage.erased, disk);
        MarkedHardware(v);
        SameHardwareAgain(w, v, Marked(v));
        HardwareDepends(w, if w.trigger.value.mode.SdSelfInstall? then Marked(v) else v, Next(w, step));
    } else {
      SameAsItself(w);
    }
  }

  lemma SameAsItself(w: World)
    ensures SameHardware(w, w)
  {
  }

  /** Step `k`, not before `from`, plugs in disk `e` under the name, and no later step gives the name to a disk. */
  ghost predicate TookName(w: World, steps: seq<Step>, from: nat, name: string, k: nat, e: DiskId) {
    && from <= k < |steps| && steps[k] == Plug(e, name) && Enabled(Run(w, steps[..k]), steps[k])
    && forall j: nat | k < j < |steps| && Enabled(Run(w, steps[..j]), steps[j]) :: !GivesName(steps[j], name)
  }

  predicate GivesName(step: Step, name: string) {
    step.Plug? && step.name == name
  }

  lemma NameStep(w: World, step: Step, name: string)
    ensures GivesName(step, name) && Enabled(w, step) ==>
      name in Next(w, step).names && Next(w, step).names[name] == step.disk
    ensures !(GivesName(step, name) && Enabled(w, step)) && name in Next(w, step).names ==>
      name in w.names && w.names[name] == Next(w, step).names[name]
  {
    hide Listed, Resolves, GateMode, WantedTarget, TargetConfig, PreflightPasses;
  }

  /** `TookName` for one more step. */
  lemma TookNameSnoc(w: World, front: seq<Step>, step: Step, from: nat, name: string, k: nat, e: DiskId)
    requires k < |front|
    ensures TookName(w, front + [step], from, name, k, e) <==>
      TookName(w, front, from, name, k, e) && !(GivesName(step, name) && Enabled(Run(w, front), step))
  {
    hide Run, Enabled;
    var steps := front + [step];
    assert steps[..|front|] == front && forall j: nat | j < |front| :: steps[j] == front[j] && steps[..j] == front[..j];
    if TookName(w, steps, from, name, k, e) {
      assert steps[|front|] == step;
    }
  }

  /** The disk that took a name last is the one that the name denotes. */
  lemma {:induction false} TookNameOwns(w: World, steps: seq<Step>, from: nat, name: string, k: nat, e: DiskId)
    requires TookName(w, steps, from, name, k, e) && name in Run(w, steps).names
    ensures Run(w, steps).names[name] == e
    decreases |steps|
  {
    hide Next, Run;
    var front, last := steps[..|steps| - 1], steps[|steps| - 1];
    RunLast(w, steps);
    NameStep(Run(w, front), last, name);
    if k < |front| {
      assert steps == front + [last];
      TookNameSnoc(w, front, last, from, name, k, e);
      TookNameOwns(w, front, from, name, k, e);
    } else {
      assert steps[..k] == front;
    }
  }

  /** The disk that a name denotes had it at step `from`, or took it since. */
  lemma {:induction false} NameSince(w: World, steps: seq<Step>, from: nat, name: string)
    requires from <= |steps| && name in Run(w, steps).names
    ensures var d := Run(w, steps).names[name];
      || (name in Run(w, steps[..from]).names && Run(w, steps[..from]).names[name] == d)
      || exists k :: TookName(w, steps, from, name, k, d)
    decreases |steps|
  {
    hide Next, Run, TookName;
    if from == |steps| {
      assert steps[..from] == steps;
    } else {
      var front, last := steps[..|steps| - 1], steps[|steps| - 1];
      RunLast(w, steps);
      assert steps == front + [last] && steps[..|front|] == front;
      Prefix(steps, from);
      NameStep(Run(w, front), last, name);
      if GivesName(last, name) && Enabled(Run(w, front), last) {
        TookNameNow(w, steps, from, name);
      } else {
        NameSince(w, front, from, name);
        var d := Run(w, front).names[name];
        if k: nat :| TookName(w, front, from, name, k, d) {
          TookNameBounds(w, front, from, name, k, d);
          TookNameSnoc(w, front, last, from, name, k, d);
        }
      }
    }
  }

  lemma TookNameBounds(w: World, steps: seq<Step>, from: nat, name: string, k: nat, e: DiskId)
    requires TookName(w, steps, from, name, k, e)
    ensures from <= k < |steps| && steps[k] == Plug(e, name)
  {
  }

  lemma TookNameNow(w: World, steps: seq<Step>, from: nat, name: string)
    requires from < |steps| && GivesName(steps[|steps| - 1], name)
    requires Enabled(Run(w, steps[..|steps| - 1]), steps[|steps| - 1])
    ensures TookName(w, steps, from, name, |steps| - 1, steps[|steps| - 1].disk)
  {
  }

  /** Since step `from`, the disk that took the name last is one that is removable in the world the run starts from. */
  ghost predicate RemovableTookName(w: World, steps: seq<Step>, from: nat, name: string) {
    exists k: nat, e: DiskId :: TookName(w, steps, from, name, k, e) && e in w.disks && w.disks[e].removable
  }

  /** The removable test of each mode. */
  predicate ModeFits(w: World, t: Trigger) {
    && FlagTrue(t.gate, "confirm_destructive") && FirstSetup(w) && SourceKnown(w)
    && (t.mode.UsbUnattended? ==> FlagTrue(t.gate, "auto_install") && w.disks[w.booted.value].removable)
    && (t.mode.SdSelfInstall? ==> FlagTrue(t.gate, "self_install") && !w.disks[w.booted.value].removable && !w.x86)
  }

  /** What the history of an erase in this world guarantees; the three indices are its steps in the run. */
  ghost predicate SafeHistory(w: World, steps: seq<Step>, armed: nat, checked: nat, preflight: nat) {
    && armed < checked < preflight < |steps|
    && (var now, atArming := Run(w, steps), Run(w, steps[..armed]);
        var atCheck, atPreflight := Run(w, steps[..checked]), Run(w, steps[..preflight]);
        && FoundByPreflight(atPreflight, now) && FoundInList(atCheck, now)
        && atArming.booted == now.booted && Arms(atArming, steps[armed], now.trigger.value)
        && ModeFits(atArming, now.trigger.value))
  }

  /**
   Over every run, with disks appearing, vanishing and taking over names between any two steps, an erase comes after the
   gate in first setup, after a listing and after a preflight, all of one boot.
   */
  lemma EraseIsSafe(w: World, steps: seq<Step>) returns (armed: nat, checked: nat, preflight: nat)
    requires Quiet(w) && Enabled(Run(w, steps), Erase)
    ensures SafeHistory(w, steps, armed, checked, preflight)
  {
    hide Next, Listed, PreflightPasses, Resolves, WantedTarget, FlagTrue;
    preflight := PreflightAt(w, steps);
    checked := RevalidatedAt(w, steps[..preflight]);
    assert steps[..preflight][..checked] == steps[..checked];
    armed := ArmedAt(w, steps[..checked]);
    assert steps[..checked][..armed] == steps[..armed];
  }

  /**
   The disk that is erased is removable exactly when, since the listing, the last disk to take the target's name was a
   removable one. It is the disk that was found in the list, or took the name since; and it is the disk that passed
   preflight, and then whole, unmounted at preflight and not the source, or took the name since.
   */
  lemma ErasedDiskExactly(w: World, steps: seq<Step>, armed: nat, checked: nat, preflight: nat)
    requires Enabled(Run(w, steps), Erase) && SafeHistory(w, steps, armed, checked, preflight)
    ensures var now := Run(w, steps); var name := now.trigger.value.target; var d := now.names[name];
      && (now.disks[d].removable <==> RemovableTookName(w, steps, checked, name))
      && (d == now.stage.checked || exists k :: TookName(w, steps, checked, name, k, d))
      && (d == now.stage.passed || exists k :: TookName(w, steps, preflight, name, k, d))
      && (d == now.stage.passed ==>
            now.disks[d].whole && now.booted != Some(d) && !Run(w, steps[..preflight]).disks[d].mounted)
  {
    hide Next, Arms, ModeFits, TookName;
    var now := Run(w, steps);
    var name := now.trigger.value.target;
    HardwareStays(w, steps, checked);
    HardwareStays(w, steps, preflight);
    NameSince(w, steps, checked, name);
    NameSince(w, steps, preflight, name);
    RemovableExactly(w, steps, checked, name, now.stage.checked);
  }

  lemma RemovableExactly(w: World, steps: seq<Step>, from: nat, name: string, listed: DiskId)
    requires from <= |steps| && Present(Run(w, steps), name)
    requires var v := Run(w, steps[..from]); Present(v, name) && v.names[name] == listed && !v.disks[listed].removable
    ensures Run(w, steps).disks[Run(w, steps).names[name]].removable <==> RemovableTookName(w, steps, from, name)
  {
    hide Next, Run, TookName;
    var d := Run(w, steps).names[name];
    HardwareStays(w, steps, from);
    HardwareStays(w, steps, 0);
    assert steps[..0] == [];
    RunNothing(w);
    NameSince(w, steps, from, name);
    forall k: nat, e | TookName(w, steps, from, name, k, e)
      ensures e == d
    {
      TookNameOwns(w, steps, from, name, k, e);
    }
  }

  /** A live stick arms an install to the only fixed disk; a removable disk is at hand but not connected. */
  predicate ReuseReady(w: World, stick: DiskId, fixed: DiskId, other: DiskId, stickName: string, name: string) {
    && Quiet(w) && w.names == map[stickName := stick, name := fixed] && stickName != name
    && w.disks.Keys == {stick, fixed, other} && stick != fixed && other != stick && other != fixed
    && w.disks[stick].live && w.disks[stick].removable && !w.disks[fixed].removable && w.disks[fixed].whole
    && !w.disks[fixed].mounted
    && w.disks[other].removable && w.disks[other].whole && !w.disks[other].mounted && !SkippedName(name)
    && w.disks[stick].awcfg.Some? && FlagTrue(w.disks[stick].awcfg.value, "auto_install")
    && FlagTrue(w.disks[stick].awcfg.value, "confirm_destructive") && WantedTarget(w.disks[stick].awcfg.value) == "auto"
  }

  /**
   During the countdown the fixed disk goes away and a removable one takes its name; preflight passes, and it is
   erased.
   */
  function ReusedName(stick: DiskId, other: DiskId, name: string): seq<Step> {
    [Boot(stick)] + [Preconfig(stick, name)] + [Revalidate] + [Unplug(name)] + [Plug(other, name)] + [Preflight]
  }

  predicate AboutToErase(w: World, d: DiskId) {
    Enabled(w, Erase) && w.names[w.trigger.value.target] == d
  }

  lemma ReusedNameErasesRemovable(w: World, stick: DiskId, fixed: DiskId, other: DiskId, stickName: string,
      name: string)
    returns (armed: nat, checked: nat, preflight: nat)
    requires ReuseReady(w, stick, fixed, other, stickName, name)
    ensures SafeHistory(w, ReusedName(stick, other, name), armed, checked, preflight)
    ensures TookName(w, ReusedName(stick, other, name), checked, name, 4, other)
    ensures AboutToErase(Run(w, ReusedName(stick, other, name)), other) && w.disks[other].removable
    ensures Run(w, ReusedName(stick, other, name)).stage == Passed(fixed, other)
  {
    hide Run, Next, SkippedName, FlagTrue, WantedTarget;
    var s1 := [] + [Boot(stick)];
    var s2 := s1 + [Preconfig(stick, name)];
    var s3 := s2 + [Revalidate];
    var s4 := s3 + [Unplug(name)];
    var s5 := s4 + [Plug(other, name)];
    assert [] + [Boot(stick)] == [Boot(stick)];
    RunNothing(w);
    RunSnoc(w, [], Boot(stick));
    RunSnoc(w, s1, Preconfig(stick, name));
    RunSnoc(w, s2, Revalidate);
    RunSnoc(w, s3, Unplug(name));
    RunSnoc(w, s4, Plug(other, name));
    RunSnoc(w, s5, Preflight);
    ArmsFixedDisk(w, stick, fixed, other, stickName, name);
    DiskExchanged(Run(w, s2), stick, fixed, other, stickName, name);
    armed, checked, preflight := EraseIsSafe(w, ReusedName(stick, other, name));
    ErasedDiskExactly(w, ReusedName(stick, other, name), armed, checked, preflight);
    OnlyPlug(w, stick, other, name, checked);
  }

  lemma OnlyPlug(w: World, stick: DiskId, other: DiskId, name: string, from: nat)
    requires RemovableTookName(w, ReusedName(stick, other, name), from, name)
    ensures TookName(w, ReusedName(stick, other, name), from, name, 4, other)
  {
    hide Run, Enabled;
    var steps := ReusedName(stick, other, name);
    var k: nat, e :| TookName(w, steps, from, name, k, e);
    assert forall j | 0 <= j < |steps| && steps[j].Plug? :: j == 4;
  }

  lemma RunNothing(w: World)
    ensures Run(w, []) == w
  {
  }

  lemma ArmsFixedDisk(w: World, stick: DiskId, fixed: DiskId, other: DiskId, stickName: string, name: string)
    requires ReuseReady(w, stick, fixed, other, stickName, name)
    ensures Next(Next(w, Boot(stick)), Preconfig(stick, name))
         == w.(booted := Some(stick), trigger := Some(Trigger(name, UsbUnattended, w.disks[stick].awcfg.value)))
  {
    hide SkippedName, FlagTrue, WantedTarget;
    SelectorsDiffer();
    var v := Next(w, Boot(stick));
    assert SourceKnown(v) by { assert v.names[stickName] == stick; }
    assert Resolves(v, "auto", name);
  }

  /**
   From the armed trigger on: the fixed disk is found, exchanged during the countdown, and the other one passes
   preflight.
   */
  lemma DiskExchanged(w: World, stick: DiskId, fixed: DiskId, other: DiskId, stickName: string, name: string)
    requires w.names == map[stickName := stick, name := fixed] && stickName != name && stick != fixed && other != stick
      && other != fixed
    requires w.booted == Some(stick) && stick in w.disks && fixed in w.disks && other in w.disks && w.disks[stick].live
    requires w.trigger.Some? && w.trigger.value.target == name && w.stage.Idle? && Listed(w, name)
    requires w.disks[other].whole && !w.disks[other].mounted
    ensures Next(Next(Next(Next(w, Revalidate), Unplug(name)), Plug(other, name)), Preflight)
         == w.(names := map[stickName := stick, name := other], stage := Passed(fixed, other))
  {
    hide SkippedName;
    var v := Next(Next(w, Revalidate), Unplug(name));
    assert v == w.(names := map[stickName := stick], stage := Pausing(fixed));
    var u := Next(v, Plug(other, name));
    assert u == w.(names := map[stickName := stick, name := other], stage := Pausing(fixed)) by {
      assert v.names.Values == {stick} by {
        assert forall n | n in v.names :: n == stickName;
        assert v.names[stickName] == stick;
      }
    }
    assert Discovered(u) by { assert u.names[stickName] == stick; }
  }

  // ---- no reinstall loop -----------------------------------------------------------------------

  /** An uninitialised disk whose own config arms a self-install. */
  predicate Armed(d: Disk) {
    !d.initialized && d.awcfg.Some? && FlagTrue(d.awcfg.value, "self_install")
      && FlagTrue(d.awcfg.value, "confirm_destructive")
  }

  function ArmedDisks(w: World): set<DiskId> {
    set d | d in w.disks && Armed(w.disks[d])
  }

  /** The boot disk, if it keeps a marker. */
  function MarkedDisk(w: World): set<DiskId> {
    if Running(w) && !w.disks[w.booted.value].live then {w.booted.value} else {}
  }

  function ErasedDisk(w: World): set<DiskId> {
    if w.stage.Installing? then {w.stage.erased} else {}
  }

  /** The disks that a step can take out of the armed ones. */
  function Disarmed(w: World, step: Step): set<DiskId> {
    if !Enabled(w, step) then {}
    else
      match step
      case InitDone => MarkedDisk(w)
      case Erase => {w.names[w.trigger.value.target]}
      case Finish(_) => {w.stage.erased} + if w.trigger.value.mode.SdSelfInstall? then MarkedDisk(w) else {}
      case _ => {}
  }

  /** No step arms a disk, and each disarms exactly these. */
  lemma StepDisarms(w: World, step: Step)
    ensures ArmedDisks(Next(w, step)) == ArmedDisks(w) - Disarmed(w, step)
  {
    hide Listed, Resolves, GateMode, WantedTarget, PreflightPasses, FlagTrue, TargetConfig;
    if Enabled(w, step) && step.Finish? {
      InstalledConfigArmsNothing(w.template, Some(w.trigger.value.gate), "self_install");
    }
  }

  /** Since the trigger was armed, only the boot disk and the erased disk can have been disarmed. */
  ghost predicate DisarmedSince(v: World, now: World) {
    && ArmedDisks(now) <= ArmedDisks(v) - ErasedDisk(now)
    && ArmedDisks(v) - MarkedDisk(now) - ErasedDisk(now) <= ArmedDisks(now)
  }

  lemma {:induction false} ArmedSince(w: World, steps: seq<Step>)
    requires w.trigger.None? && Run(w, steps).trigger.Some?
    ensures DisarmedSince(Run(w, steps[..ArmedAt(w, steps)]), Run(w, steps))
    decreases |steps|
  {
    hide Next, Armed, Arms, ArmedDisks, Disarmed, MarkedDisk;
    var front, last := steps[..|steps| - 1], steps[|steps| - 1];
    TriggerStep(Run(w, front), last);
    StepDisarms(Run(w, front), last);
    if Run(w, front).trigger.Some? {
      ArmedSince(w, front);
      Prefix(steps, ArmedAt(w, front));
      SinceStep(Run(w, steps[..ArmedAt(w, front)]), Run(w, front), last);
    } else {
      SinceArming(Run(w, front), Run(w, steps));
    }
  }

  lemma SinceArming(v: World, now: World)
    requires now.disks == v.disks && now.stage.Idle?
    ensures DisarmedSince(v, now)
  {
  }

  lemma SinceStep(v: World, w: World, step: Step)
    requires DisarmedSince(v, w) && w.trigger.Some? && Next(w, step).trigger.Some?
    ensures DisarmedSince(v, Next(w, step))
  {
    hide Listed, Resolves, GateMode, WantedTarget, PreflightPasses, TargetConfig, Armed, ArmedDisks;
    StepDisarms(w, step);
  }

  predicate SelfInstalls(w: World, step: Step) {
    Enabled(w, step) && step.Finish? && w.trigger.value.mode.SdSelfInstall?
  }

  /** The boot disk or the target was armed when the trigger was. */
  predicate TakesArmedDisk(v: World, now: World) {
    (ErasedDisk(now) + MarkedDisk(now)) * ArmedDisks(v) != {}
  }

  /**
   A self-install leaves exactly the armed disks of the moment it was armed, without the target and the boot disk; so it
   lowers their number exactly when one of the two was among them.
   */
  lemma SelfInstallLowersExactly(w: World, steps: seq<Step>, finish: Step)
    requires w.trigger.None? && SelfInstalls(Run(w, steps), finish)
    ensures var now := Run(w, steps); var v := Run(w, steps[..ArmedAt(w, steps)]);
      && ArmedDisks(Next(now, finish)) == ArmedDisks(v) - ErasedDisk(now) - MarkedDisk(now)
      && |ArmedDisks(Next(now, finish))| <= |ArmedDisks(v)|
      && (|ArmedDisks(Next(now, finish))| < |ArmedDisks(v)| <==> TakesArmedDisk(v, now))
  {
    hide ArmedDisks, Next, MarkedDisk;
    ArmedSince(w, steps);
    StepDisarms(Run(w, steps), finish);
    SmallerSet(ArmedDisks(Next(Run(w, steps), finish)), ArmedDisks(Run(w, steps[..ArmedAt(w, steps)])));
  }

  lemma SmallerSet(a: set<DiskId>, b: set<DiskId>)
    requires a <= b
    ensures |a| <= |b| && (a != b ==> |a| < |b|)
  {
    assert b == a + (b - a);
    assert |b| == |a| + |b - a|;
  }

  function SelfInstallCount(w: World, steps: seq<Step>): nat {
    if steps == [] then 0
    else
      var front, last := steps[..|steps| - 1], steps[|steps| - 1];
      SelfInstallCount(w, front) + if SelfInstalls(Run(w, front), last) then 1 else 0
  }

  /** The self-installs of a run that took an armed disk. */
  ghost function LoweringCount(w: World, steps: seq<Step>): nat
    requires w.trigger.None?
  {
    if steps == [] then 0
    else
      var front, last := steps[..|steps| - 1], steps[|steps| - 1];
      LoweringCount(w, front) + if Lowers(w, front, last) then 1 else 0
  }

  /** The armed disks that count against a run: those of now, or of the moment the trigger was armed. */
  ghost function Budget(w: World, steps: seq<Step>): nat
    requires w.trigger.None?
  {
    |ArmedDisks(if Run(w, steps).trigger.Some? then Run(w, steps[..ArmedAt(w, steps)]) else Run(w, steps))|
  }

  /** Whether a step after a run is a self-install that takes an armed disk. */
  ghost predicate Lowers(w: World, front: seq<Step>, step: Step)
    requires w.trigger.None?
  {
    SelfInstalls(Run(w, front), step) && TakesArmedDisk(Run(w, front[..ArmedAt(w, front)]), Run(w, front))
  }

  lemma BudgetStep(w: World, front: seq<Step>, step: Step)
    requires w.trigger.None?
    ensures Budget(w, front + [step]) + (if Lowers(w, front, step) then 1 else 0) <= Budget(w, front)
  {
    hide ArmedDisks, Next, Run, MarkedDisk, TakesArmedDisk, Arms, SelfInstalls, Disarmed, DisarmedSince;
    var steps := front + [step];
    RunSnoc(w, front, step);
    var now, next := Run(w, front), Run(w, steps);
    InstallEndsTrigger(now, step);
    if next.trigger.Some? {
      BudgetWhileArmed(w, front, step);
    } else if now.trigger.Some? {
      DisarmingStaysWithin(w, front, step);
      if SelfInstalls(now, step) {
        SelfInstallLowersExactly(w, front, step);
      }
    } else {
      StepDisarms(now, step);
      SmallerSet(ArmedDisks(next), ArmedDisks(now));
    }
  }

  lemma InstallEndsTrigger(w: World, step: Step)
    ensures SelfInstalls(w, step) ==> w.trigger.Some? && Next(w, step).trigger.None?
  {
  }

  lemma BudgetWhileArmed(w: World, front: seq<Step>, step: Step)
    requires w.trigger.None? && Run(w, front + [step]).trigger.Some?
    ensures Budget(w, front + [step]) == Budget(w, front)
  {
    hide ArmedDisks, Next, Arms;
    var steps := front + [step];
    assert steps[..|steps| - 1] == front;
    Prefix(steps, ArmedAt(w, steps));
    if Run(w, front).trigger.None? {
      assert steps[..|steps| - 1] == front;
    } else {
      assert steps[..ArmedAt(w, front)] == front[..ArmedAt(w, front)];
    }
  }

  lemma DisarmingStaysWithin(w: World, front: seq<Step>, step: Step)
    requires w.trigger.None? && Run(w, front).trigger.Some?
    ensures |ArmedDisks(Next(Run(w, front), step))| <= |ArmedDisks(Run(w, front[..ArmedAt(w, front)]))|
  {
    hide ArmedDisks, Next, Run, MarkedDisk, ErasedDisk, Disarmed;
    ArmedSince(w, front);
    StepDisarms(Run(w, front), step);
    SmallerSet(ArmedDisks(Next(Run(w, front), step)), ArmedDisks(Run(w, front[..ArmedAt(w, front)])));
  }

  /**
   Over every run, the self-installs that lower the number of armed disks are at most as many as there were armed
   disks.
   */
  lemma {:induction false} LoweringIsBounded(w: World, steps: seq<Step>)
    requires w.trigger.None?
    ensures LoweringCount(w, steps) + Budget(w, steps) <= |ArmedDisks(w)|
    decreases |steps|
  {
    hide Budget, Lowers, ArmedDisks;
    if steps == [] {
      BudgetNothing(w);
    } else {
      LoweringIsBounded(w, steps[..|steps| - 1]);
      BudgetStep(w, steps[..|steps| - 1], steps[|steps| - 1]);
      assert steps == steps[..|steps| - 1] + [steps[|steps| - 1]];
    }
  }

  lemma BudgetNothing(w: World)
    requires w.trigger.None?
    ensures Budget(w, []) == |ArmedDisks(w)|
  {
  }

  /** The config that preconfig reads is the boot disk's own, and a live medium is a removable disk or boots on x86. */
  predicate OwnConfig(w: World, step: Step) {
    step.Preconfig? && Running(w) ==>
      w.booted.value == step.awcfg && (w.disks[step.awcfg].live ==> w.disks[step.awcfg].removable || w.x86)
  }

  ghost predicate AllOwnConfig(w: World, steps: seq<Step>) {
    forall k: nat | k < |steps| :: OwnConfig(Run(w, steps[..k]), steps[k])
  }

  /** A self-install armed by the boot disk's own config is armed on an armed disk that keeps its marker. */
  lemma OwnConfigIsArmed(v: World, step: Step, t: Trigger)
    requires Arms(v, step, t) && t.mode.SdSelfInstall? && OwnConfig(v, step)
    ensures MarkedDisk(v) == {v.booted.value} && v.booted.value in ArmedDisks(v)
  {
    hide Resolves, FlagTrue, WantedTarget;
  }

  /** A boot disk that keeps a marker does so as long as the machine runs. */
  lemma MarkerKept(w: World, steps: seq<Step>, k: nat)
    requires k <= |steps| && Run(w, steps[..k]).booted == Run(w, steps).booted
    ensures MarkedDisk(Run(w, steps[..k])) == MarkedDisk(Run(w, steps))
  {
    hide Run;
    HardwareStays(w, steps, k);
  }

  lemma MarkedIsTaken(v: World, now: World)
    requires v.booted.Some? && MarkedDisk(v) == MarkedDisk(now) == {v.booted.value} && v.booted.value in ArmedDisks(v)
    ensures TakesArmedDisk(v, now)
  {
    hide ArmedDisks, MarkedDisk, ErasedDisk;
    assert v.booted.value in (ErasedDisk(now) + MarkedDisk(now)) * ArmedDisks(v);
  }

  lemma OwnConfigLowers(w: World, front: seq<Step>, step: Step)
    requires w.trigger.None? && AllOwnConfig(w, front) && SelfInstalls(Run(w, front), step)
    ensures Lowers(w, front, step)
  {
    hide Next, Run, Arms, ArmedDisks, MarkedDisk, Marked, TargetConfig, SameHardware, TakesArmedDisk, OwnConfig;
    var k := ArmedAt(w, front);
    var v, now := Run(w, front[..k]), Run(w, front);
    OwnConfigIsArmed(v, front[k], now.trigger.value);
    MarkerKept(w, front, k);
    MarkedIsTaken(v, now);
  }

  /**
   Over every run in which each boot reads its own config, self-installs are at most as many as there were armed
   disks.
   */
  lemma {:induction false} SelfInstallsAreBounded(w: World, steps: seq<Step>)
    requires w.trigger.None? && AllOwnConfig(w, steps)
    ensures SelfInstallCount(w, steps) == LoweringCount(w, steps) <= |ArmedDisks(w)|
    decreases |steps|
  {
    hide Run, ArmedDisks, Lowers, SelfInstalls, OwnConfig;
    LoweringIsBounded(w, steps);
    if steps != [] {
      var front := steps[..|steps| - 1];
      forall k: nat | k < |front|
        ensures OwnConfig(Run(w, front[..k]), front[k])
      {
        Prefix(steps, k);
        assert OwnConfig(Run(w, steps[..k]), steps[k]);
      }
      SelfInstallsAreBounded(w, front);
      if SelfInstalls(Run(w, front), steps[|steps| - 1]) {
        OwnConfigLowers(w, front, steps[|steps| - 1]);
      } else {
        LowersIsInstall(w, front, steps[|steps| - 1]);
      }
    }
  }

  lemma LowersIsInstall(w: World, front: seq<Step>, step: Step)
    requires w.trigger.None?
    ensures Lowers(w, front, step) ==> SelfInstalls(Run(w, front), step)
  {
  }

  // ---- where the loop comes back ---------------------------------------------------------------

  /**
   A fixed disk under this name that self-installs can use both as source and as target, and that is not armed
   itself.
   */
  predicate Usable(w: World, d: DiskId, name: string) {
    d in w.disks && !w.disks[d].removable && w.disks[d].whole && !w.disks[d].mounted && !w.disks[d].live
      && !SkippedName(name)
    && !Armed(w.disks[d])
  }

  datatype Bench = Bench(a: DiskId, aName: string, b: DiskId, bName: string, stick: DiskId, stickName: string)

  predicate Distinct(p: Bench) {
    p.a != p.b && p.a != p.stick && p.b != p.stick && p.aName != p.bName && p.aName != p.stickName
      && p.bName != p.stickName
  }

  function Swapped(p: Bench): Bench {
    p.(a := p.b, aName := p.bName, b := p.a, bName := p.aName)
  }

  /**
   Two usable disks, the first not set up, and a stick whose config arms self-installs to the only other fixed disk.
   */
  predicate LoopReady(w: World, p: Bench) {
    && Quiet(w) && !w.x86 && Distinct(p) && w.disks.Keys == {p.a, p.b, p.stick}
    && w.names == map[p.aName := p.a, p.bName := p.b, p.stickName := p.stick]
    && Usable(w, p.a, p.aName) && Usable(w, p.b, p.bName) && !w.disks[p.a].initialized
    && w.disks[p.stick].removable && w.disks[p.stick].awcfg.Some?
    && FlagTrue(w.disks[p.stick].awcfg.value, "self_install")
    && FlagTrue(w.disks[p.stick].awcfg.value, "confirm_destructive")
    && WantedTarget(w.disks[p.stick].awcfg.value) == "auto"
  }

  /** The world of a bench once it has booted disk `a` and armed the install to `b`. */
  function ArmedBench(w: World, p: Bench): World
    requires LoopReady(w, p)
  {
    w.(booted := Some(p.a), trigger := Some(Trigger(p.bName, SdSelfInstall, w.disks[p.stick].awcfg.value)))
  }

  lemma BenchArms(w: World, p: Bench)
    requires LoopReady(w, p)
    ensures Next(Next(w, Boot(p.a)), Preconfig(p.stick, p.bName)) == ArmedBench(w, p)
    ensures Next(w, Boot(p.a)).disks == w.disks
  {
    hide SkippedName, FlagTrue, WantedTarget;
    SelectorsDiffer();
    var v := Next(w, Boot(p.a));
    assert SourceKnown(v) by { assert v.names[p.aName] == p.a; }
    assert Connected(v, p.stick) by { assert v.names[p.stickName] == p.stick; }
    assert Resolves(v, "auto", p.bName);
  }

  /** The bench with disk `b` erased. */
  function ErasedBench(w: World, p: Bench): World
    requires LoopReady(w, p)
  {
    WithDisk(ArmedBench(w, p), p.b, w.disks[p.b].(initialized := false, awcfg := None)).(stage := Installing(p.b))
  }

  lemma BenchErases(w: World, p: Bench)
    requires LoopReady(w, p)
    ensures Next(Next(Next(ArmedBench(w, p), Revalidate), Preflight), Erase) == ErasedBench(w, p)
  {
    hide SkippedName, FlagTrue, WantedTarget, TargetConfig;
    var v1 := ArmedBench(w, p);
    assert SourceKnown(v1) by { assert v1.names[p.aName] == p.a; }
    var v2 := Next(v1, Revalidate);
    assert v2 == v1.(stage := Pausing(p.b));
    var v3 := Next(v2, Preflight);
    assert v3 == v1.(stage := Passed(p.b, p.b));
    assert v3.names[p.bName] == p.b;
  }

  lemma BenchFinishes(w: World, p: Bench)
    requires LoopReady(w, p)
    ensures SelfInstalls(ErasedBench(w, p), Finish(true))
      && LoopReady(Next(ErasedBench(w, p), Finish(true)), Swapped(p))
  {
    hide SkippedName, FlagTrue, WantedTarget, TargetConfig;
    var v := ErasedBench(w, p);
    assert v.names[p.bName] == p.b;
    InstalledConfigArmsNothing(w.template, Some(v.trigger.value.gate), "self_install");
    var next := Next(v, Finish(true));
    assert !Armed(next.disks[p.b]) && !Armed(next.disks[p.a]);
    assert next.disks.Keys == {p.a, p.b, p.stick};
    assert next.names == map[p.bName := p.b, p.aName := p.a, p.stickName := p.stick];
  }

  lemma BenchInstalls(w: World, p: Bench)
    requires LoopReady(w, p)
    ensures var v := Next(Next(Next(ArmedBench(w, p), Revalidate), Preflight), Erase);
      && SelfInstalls(v, Finish(true)) && v.stage == Installing(p.b) && v.booted == Some(p.a)
      && LoopReady(Next(v, Finish(true)), Swapped(p))
  {
    hide LoopReady, Next, SelfInstalls;
    BenchErases(w, p);
    BenchFinishes(w, p);
  }

  function RoundOf(p: Bench): seq<Step> {
    [Boot(p.a)] + [Preconfig(p.stick, p.bName)] + [Revalidate] + [Preflight] + [Erase] + [Finish(true)]
  }

  function Rounds(n: nat, p: Bench): seq<Step> {
    if n == 0 then [] else Rounds(n - 1, p) + RoundOf(if n % 2 == 1 then p else Swapped(p))
  }

  lemma {:induction false} NeverArms(w: World, steps: seq<Step>)
    ensures ArmedDisks(Run(w, steps)) <= ArmedDisks(w)
    decreases |steps|
  {
    hide Next, ArmedDisks, Disarmed;
    if steps != [] {
      NeverArms(w, steps[..|steps| - 1]);
      StepDisarms(Run(w, steps[..|steps| - 1]), steps[|steps| - 1]);
    }
  }

  lemma CountSnoc(w: World, front: seq<Step>, step: Step)
    requires w.trigger.None?
    ensures SelfInstallCount(w, front + [step]) ==
      SelfInstallCount(w, front) + if SelfInstalls(Run(w, front), step) then 1 else 0
    ensures LoweringCount(w, front + [step]) == LoweringCount(w, front) + if Lowers(w, front, step) then 1 else 0
    ensures Lowers(w, front, step) ==> SelfInstalls(Run(w, front), step)
  {
    assert (front + [step])[..|front|] == front;
  }

  /** A step other than the end of an installation counts nothing. */
  lemma PlainStep(w: World, front: seq<Step>, step: Step)
    requires w.trigger.None? && !step.Finish?
    ensures Run(w, front + [step]) == Next(Run(w, front), step)
    ensures SelfInstallCount(w, front + [step]) == SelfInstallCount(w, front)
      && LoweringCount(w, front + [step]) == LoweringCount(w, front)
  {
    hide Run, Next, Lowers, SelfInstallCount, LoweringCount;
    RunSnoc(w, front, step);
    CountSnoc(w, front, step);
  }

  /** A self-install between two disks that were never armed takes no armed disk. */
  lemma IdleInstall(w: World, front: seq<Step>, step: Step, p: Bench)
    requires w.trigger.None? && p.a !in ArmedDisks(w) && p.b !in ArmedDisks(w)
    requires SelfInstalls(Run(w, front), step) && Run(w, front).stage == Installing(p.b)
      && Run(w, front).booted == Some(p.a)
    ensures !Lowers(w, front, step)
  {
    hide Run, Next, ArmedDisks, SelfInstalls;
    InstallEndsTrigger(Run(w, front), step);
    NeverArms(w, front[..ArmedAt(w, front)]);
  }

  lemma RoundAppended(w: World, front: seq<Step>, p: Bench)
    requires w.trigger.None? && LoopReady(Run(w, front), p) && p.a !in ArmedDisks(w) && p.b !in ArmedDisks(w)
    ensures LoopReady(Run(w, front + RoundOf(p)), Swapped(p))
    ensures SelfInstallCount(w, front + RoundOf(p)) == SelfInstallCount(w, front) + 1
    ensures LoweringCount(w, front + RoundOf(p)) == LoweringCount(w, front)
  {
    hide Run, Next, LoopReady, ArmedDisks, SelfInstallCount, LoweringCount, Lowers, SelfInstalls, ArmedBench;
    var w0 := Run(w, front);
    BenchArms(w0, p);
    BenchInstalls(w0, p);
    var s1 := front + [Boot(p.a)];
    var s2 := s1 + [Preconfig(p.stick, p.bName)];
    var s3 := s2 + [Revalidate];
    var s4 := s3 + [Preflight];
    var s5 := s4 + [Erase];
    PlainStep(w, front, Boot(p.a));
    PlainStep(w, s1, Preconfig(p.stick, p.bName));
    PlainStep(w, s2, Revalidate);
    PlainStep(w, s3, Preflight);
    PlainStep(w, s4, Erase);
    RunSnoc(w, s5, Finish(true));
    CountSnoc(w, s5, Finish(true));
    IdleInstall(w, s5, Finish(true), p);
    assert front + RoundOf(p) == s5 + [Finish(true)];
  }

  /**
   If the config found is not the boot disk's own, self-installs can go back and forth any number of times, and none of
   them takes an armed disk.
   */
  lemma {:induction false} ForeignConfigLoops(w: World, n: nat, p: Bench)
    requires LoopReady(w, p)
    ensures LoopReady(Run(w, Rounds(n, p)), if n % 2 == 0 then p else Swapped(p))
    ensures SelfInstallCount(w, Rounds(n, p)) == n && LoweringCount(w, Rounds(n, p)) == 0
  {
    hide Run, LoopReady, SelfInstallCount, LoweringCount, RoundOf, ArmedDisks;
    LoopDisksUnarmed(w, p);
    if n == 0 {
      NothingCounted(w);
    } else {
      ForeignConfigLoops(w, n - 1, p);
      var q := if n % 2 == 1 then p else Swapped(p);
      RoundAppended(w, Rounds(n - 1, p), q);
    }
  }

  lemma NothingCounted(w: World)
    requires w.trigger.None?
    ensures Run(w, []) == w && SelfInstallCount(w, []) == 0 && LoweringCount(w, []) == 0
  {
  }

  lemma LoopDisksUnarmed(w: World, p: Bench)
    requires LoopReady(w, p)
    ensures w.trigger.None? && p.a !in ArmedDisks(w) && p.b !in ArmedDisks(w)
  {
    hide FlagTrue, SkippedName, WantedTarget;
  }
}
