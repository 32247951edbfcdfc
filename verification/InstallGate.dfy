/**
 What arms an unattended install, what the power switch and the operator can do, and worlds in which it goes wrong.
 */
module InstallGate {
  import opened Values
  import opened Text
  import opened ConfigBackup
  import opened Unattended

  // ---- reading the config ----------------------------------------------------------------------

  function Newlines(n: nat): string {
    if n == 0 then "" else Newlines(n - 1) + "\n"
  }

  lemma {:induction false} CapturedWithout(t: string, n: nat)
    requires t == "" || t[|t| - 1] != '\n'
    ensures Captured(t + Newlines(n)) == t
  {
    var s := t + Newlines(n);
    if n == 0 {
      assert s == t;
    } else {
      assert s == (t + Newlines(n - 1)) + "\n" && s[..|s| - 1] == t + Newlines(n - 1);
      CapturedWithout(t, n - 1);
    }
  }

  lemma {:induction false} CapturedOf(s: string) returns (n: nat)
    ensures s == Captured(s) + Newlines(n) && (Captured(s) == "" || Captured(s)[|Captured(s)| - 1] != '\n')
  {
    n := 0;
    if s != "" && s[|s| - 1] == '\n' {
      var k := CapturedOf(s[..|s| - 1]);
      n := k + 1;
      assert s == s[..|s| - 1] + "\n" == Captured(s) + (Newlines(k) + "\n");
    } else {
      assert s + "" == s;
    }
  }

  /** A flag is set by the boolean, or by the text "true" with any number of line ends after it. */
  lemma FlagTrueExactly(cfg: Json, key: string)
    ensures FlagTrue(cfg, key) <==>
      || Member(cfg, key) == Some(Bool(true))
      || exists n :: Member(cfg, key) == Some(Str("true" + Newlines(n)))
  {
    match Member(cfg, key)
    case Some(Str(s)) =>
      var n := CapturedOf(s);
      if k :| Member(cfg, key) == Some(Str("true" + Newlines(k))) {
        CapturedWithout("true", k);
      }
    case _ =>
  }

  /** A stated selector is taken without its line ends; nothing, an empty text and "null" mean "auto". */
  lemma SelectorExactly(cfg: Json, t: string, n: nat)
    ensures Member(cfg, "target") in [None, Some(Null), Some(Bool(false))] ==> WantedTarget(cfg) == "auto"
    ensures Member(cfg, "target") == Some(Str(t + Newlines(n))) && (t == "" || t[|t| - 1] != '\n') ==>
      WantedTarget(cfg) == if t == "" || t == "null" then "auto" else t
  {
    if Member(cfg, "target") == Some(Str(t + Newlines(n))) && (t == "" || t[|t| - 1] != '\n') {
      CapturedWithout(t, n);
    }
  }

  /** A selector that is no text at all resolves to no disk. */
  lemma OddSelectorResolvesNothing(cfg: Json, w: World, name: string)
    requires Member(cfg, "target").Some? && !Member(cfg, "target").value.Str?
    requires !IsNothing(Member(cfg, "target").value)
    ensures !Resolves(w, WantedTarget(cfg), name)
  {
    assert |"?"| == 1 && |"auto"| == 4 && |"largest"| == 7 && |"/dev/"| == 5;
  }

  // ---- the gate --------------------------------------------------------------------------------

  /** Why a self-install is armed. */
  predicate MaySelfInstall(w: World, cfg: Json)
    requires SourceKnown(w)
  {
    FlagTrue(cfg, "self_install") && !w.disks[w.booted.value].removable && !w.x86
  }

  /** Why an install from a stick is armed. */
  predicate MayInstallFromStick(w: World, cfg: Json)
    requires SourceKnown(w)
  {
    FlagTrue(cfg, "auto_install") && w.disks[w.booted.value].removable
  }

  /**
   The gate opens exactly in first setup, with the second key, a known source, and a flag that fits the boot medium.
   */
  lemma GateExactly(w: World, cfg: Json)
    ensures GateMode(w, cfg).Some? <==>
      && FirstSetup(w) && FlagTrue(cfg, "confirm_destructive") && SourceKnown(w)
      && (MayInstallFromStick(w, cfg) || MaySelfInstall(w, cfg))
    ensures GateMode(w, cfg) == Some(UsbUnattended) ==> MayInstallFromStick(w, cfg)
    ensures GateMode(w, cfg) == Some(SdSelfInstall) ==> MaySelfInstall(w, cfg)
  {
    hide FlagTrue;
  }

  /** At the moment a disk can be erased, the config that armed it held both keys, and boot medium and mode fitted. */
  lemma EraseNeedsConsent(w: World, steps: seq<Step>, armed: nat, checked: nat, preflight: nat)
    requires SafeHistory(w, steps, armed, checked, preflight)
    ensures var v, t := Run(w, steps[..armed]), Run(w, steps).trigger.value;
      && FlagTrue(t.gate, "confirm_destructive") && FirstSetup(v) && SourceKnown(v)
      && (t.mode == UsbUnattended ==> MayInstallFromStick(v, t.gate))
      && (t.mode == SdSelfInstall ==> MaySelfInstall(v, t.gate))
  {
    hide FlagTrue, Run, Arms, FoundByPreflight, FoundInList, FirstSetup;
  }

  /**
   A system on a fixed disk, not x86 and not live, that reads its own config: it arms itself exactly when it is
   armed.
   */
  lemma ArmedDiskArms(w: World, cfg: Json)
    requires SourceKnown(w) && !w.x86 && w.disks[w.booted.value].awcfg == Some(cfg)
    requires !w.disks[w.booted.value].removable && !w.disks[w.booted.value].live
    ensures GateMode(w, cfg) == Some(SdSelfInstall) <==> Armed(w.disks[w.booted.value])
  {
    hide FlagTrue;
  }

  /** A system that reads its own config counts as such, unless it is a live one on a fixed disk that is not x86. */
  lemma OwnConfigExactly(w: World, a: DiskId, t: string)
    requires Running(w)
    ensures OwnConfig(w, Preconfig(a, t)) <==>
      var own := w.disks[w.booted.value];
      a == w.booted.value && !(own.live && !own.removable && !w.x86)
  {
  }

  // ---- power, plugs and the operator -----------------------------------------------------------

  /** A disk boots exactly when it is connected and nothing runs; a power cycle changes no disk and disarms. */
  lemma PowerCycle(w: World, d: DiskId)
    ensures Enabled(w, Boot(d)) <==> w.booted == None && d in w.disks && d in w.names.Values
    ensures Enabled(w, Shutdown) <==> w.booted != None
    ensures w.booted != None && Connected(w, d) ==>
      Run(w, [Shutdown] + [Boot(d)]) == w.(booted := Some(d), trigger := None, stage := Idle)
  {
    if w.booted != None && Connected(w, d) {
      RunSnoc(w, [Shutdown], Boot(d));
      RunSnoc(w, [], Shutdown);
      assert [] + [Shutdown] == [Shutdown];
    }
  }

  /** Pulling the boot disk stops a running system exactly when it is not a live one, which runs from memory. */
  lemma UnpluggedSource(w: World, name: string)
    requires Running(w) && name in w.names
    ensures Next(w, Unplug(name)).booted ==
      if w.names[name] == w.booted.value && !w.disks[w.booted.value].live then None else w.booted
    ensures Next(w, Unplug(name)).disks == w.disks && name !in Next(w, Unplug(name)).names
  {
  }

  /** Cancelled by the operator, or ended by a failing installer: nothing stays armed, and no further disk changes. */
  lemma GivingUpDisarms(w: World)
    ensures Enabled(w, GiveUp) <==> w.stage != Idle
    ensures w.stage != Idle ==> Next(w, GiveUp) == w.(trigger := None, stage := Idle)
  {
  }

  /** A system that is set up never passes the gate again, whatever config it finds, until its disk is erased. */
  lemma SetUpSystemStaysShut(w: World, cfg: Json)
    requires Running(w)
    ensures Enabled(w, InitDone) <==> !w.disks[w.booted.value].live
    ensures Enabled(w, InitDone) ==> GateMode(Next(w, InitDone), cfg) == None
    ensures Enabled(w, InitDone) ==>
      Next(w, InitDone).disks ==
      w.disks[w.booted.value := w.disks[w.booted.value].(initialized := true)]
  {
  }

  // ---- worlds in which it goes wrong -----------------------------------------------------------

  function BothKeys(flag: string): Json {
    Obj(map["confirm_destructive" := Bool(true)][flag := Bool(true)])
  }

  lemma BothKeysHold(flag: string)
    requires flag == "auto_install" || flag == "self_install"
    ensures FlagTrue(BothKeys(flag), flag) && FlagTrue(BothKeys(flag), "confirm_destructive")
    ensures WantedTarget(BothKeys(flag)) == "auto"
  {
    assert "auto_install"[0] == 'a' && "self_install"[0] == 's' && "confirm_destructive"[0] == 'c'
      && "target"[0] == 't';
    assert Member(BothKeys(flag), "target") == None;
  }

  function PlainDisk(removable: bool, live: bool, awcfg: Option<Json>): Disk {
    Disk(removable, true, false, 1, live, false, awcfg)
  }

  /** A live stick 0 at /dev/sda, a fixed disk 1 at /dev/sdb, and a removable disk 2 that is not plugged in. */
  function StickWorld(): World {
    World(map[0 := PlainDisk(true, true, Some(BothKeys("auto_install"))), 1 := PlainDisk(false, false, None),
              2 := PlainDisk(true, false, None)],
          map["/dev/sda" := 0, "/dev/sdb" := 1], true, Null, None, None, Idle)
  }

  lemma StickWorldIsReady()
    ensures ReuseReady(StickWorld(), 0, 1, 2, "/dev/sda", "/dev/sdb")
  {
    hide SkippedName, FlagTrue, WantedTarget;
    BothKeysHold("auto_install");
    SdIsListed("/dev/sdb");
    assert "/dev/sda"[7] == 'a' && "/dev/sdb"[7] == 'b';
  }

  lemma SdIsListed(name: string)
    requires |name| == 8 && name[..7] == "/dev/sd"
    ensures !SkippedName(name)
  {
    assert name[5] == 's' && name[6] == 'd' by { assert name[..7][5] == 's' && name[..7][6] == 'd'; }
    forall p | p in ["/dev/sr", "/dev/loop", "/dev/ram", "/dev/zram", "/dev/fd", "/dev/dm-", "/dev/md", "/dev/nbd"]
      ensures !(p <= name)
    {
      assert p[5] != 's' || p[6] != 'd';
    }
  }

  /** Two fixed disks at /dev/sda and /dev/sdb, and a stick at /dev/sdc whose config arms self-installs. */
  function LoopWorld(): World {
    World(map[0 := PlainDisk(false, false, None), 1 := PlainDisk(false, false, None),
              2 := PlainDisk(true, false, Some(BothKeys("self_install")))],
          map["/dev/sda" := 0, "/dev/sdb" := 1, "/dev/sdc" := 2], false, Null, None, None, Idle)
  }

  lemma LoopWorldIsReady()
    ensures LoopReady(LoopWorld(), Bench(0, "/dev/sda", 1, "/dev/sdb", 2, "/dev/sdc"))
  {
    hide SkippedName, FlagTrue, WantedTarget;
    BothKeysHold("self_install");
    SdIsListed("/dev/sda");
    SdIsListed("/dev/sdb");
    assert "/dev/sda"[7] == 'a' && "/dev/sdb"[7] == 'b' && "/dev/sdc"[7] == 'c';
  }
}
