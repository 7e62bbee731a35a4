/**
  bb_update_install of tools/bb-update/bb_update.c as an ordered list of commands, any of which may be
  the last one before a power cut, together with the boot script that runs next.
*/
module UpdateInstall {
  import opened BootScript

  /** Whether each partition holds a completely written file system. */
  datatype Disk = Disk(bootA: bool, rootA: bool, bootB: bool, rootB: bool) {
    /** Everything the boot of a slot needs; the recovery partition is never written by an update. */
    predicate Complete(s: Slot) {
      match s case A => bootA && rootA case B => bootB && rootB case Recovery => true case Other => false
    }

    function SetBoot(s: Slot, v: bool): Disk { if s.A? then this.(bootA := v) else this.(bootB := v) }
    function SetRoot(s: Slot, v: bool): Disk { if s.A? then this.(rootA := v) else this.(rootB := v) }
  }

  datatype Device = Device(env: Env, disk: Disk)

  datatype Command =
    | FormatBoot | FormatRoot | Extract
    | MountBoot | UntarBoot | UnmountBoot
    | MountRoot | UntarRoot | PostInstall | UnmountRoot
    | Cleanup
    | SetSlot | SetAttempt | SetOk      // the three fw_setenv calls

  const UPDATE_ATTEMPTS: int := 3       // written whatever boot_limit says

  /** bb_update_install's choice for an '=' manifest: the opposite of the running slot. */
  function AutoTarget(current: Slot): Slot { if current.A? then B else A }

  /** The commands in order; the boot partition is written only if the package brings boot.tar.gz. */
  function Plan(hasBoot: bool): seq<Command> {
    [FormatBoot, FormatRoot, Extract]
    + (if hasBoot then [MountBoot, UntarBoot, UnmountBoot] else [])
    + [MountRoot, UntarRoot, PostInstall, UnmountRoot, Cleanup, SetSlot, SetAttempt, SetOk]
  }

  /** A partition counts as written once it is unmounted. */
  function Execute(d: Device, target: Slot, c: Command): Device {
    match c
    case FormatBoot => d.(disk := d.disk.SetBoot(target, false))
    case FormatRoot => d.(disk := d.disk.SetRoot(target, false))
    case UnmountBoot => d.(disk := d.disk.SetBoot(target, true))
    case UnmountRoot => d.(disk := d.disk.SetRoot(target, true))
    case SetSlot => d.(env := d.env.(slot := target))
    case SetAttempt => d.(env := d.env.(attempt := UPDATE_ATTEMPTS))
    case SetOk => d.(env := d.env.(confirmed := false))
    case _ => d
  }

  function ExecuteAll(d: Device, target: Slot, commands: seq<Command>): Device
    decreases |commands|
  {
    if commands == [] then d else ExecuteAll(Execute(d, target, commands[0]), target, commands[1..])
  }

  /** The device when power fails after `cut` commands. */
  function After(d: Device, target: Slot, hasBoot: bool, cut: nat): Device
    requires cut <= |Plan(hasBoot)|
  {
    ExecuteAll(d, target, Plan(hasBoot)[..cut])
  }

  lemma {:induction false} ExecuteLast(d: Device, target: Slot, commands: seq<Command>, c: Command)
    ensures ExecuteAll(d, target, commands + [c]) == Execute(ExecuteAll(d, target, commands), target, c)
    decreases |commands|
  {
    if commands == [] {
      assert (commands + [c])[1..] == [];
    } else {
      assert (commands + [c])[1..] == commands[1..] + [c];
      ExecuteLast(Execute(d, target, commands[0]), target, commands[1..], c);
    }
  }

  // ---- Surviving a power cut ----

  predicate BootsComplete(d: Device) { d.disk.Complete(BootOnce(d.env).slot) }

  /** Whatever the cut, the next boot is of a completely written slot. */
  predicate SurvivesAnyCut(d: Device, target: Slot, hasBoot: bool) {
    forall cut: nat :: cut <= |Plan(hasBoot)| ==> BootsComplete(After(d, target, hasBoot, cut))
  }

  lemma {:induction false} AfterNext(d: Device, target: Slot, hasBoot: bool, cut: nat)
    requires cut < |Plan(hasBoot)|
    ensures After(d, target, hasBoot, cut + 1) == Execute(After(d, target, hasBoot, cut), target, Plan(hasBoot)[cut])
  {
    assert Plan(hasBoot)[..cut + 1] == Plan(hasBoot)[..cut] + [Plan(hasBoot)[cut]];
    ExecuteLast(d, target, Plan(hasBoot)[..cut], Plan(hasBoot)[cut]);
  }

  /** Number of commands before the first fw_setenv. */
  function Prelude(hasBoot: bool): nat { |Plan(hasBoot)| - 3 }

  /** The disk once both partitions have been rewritten. */
  function Rewritten(disk: Disk, target: Slot, hasBoot: bool): Disk {
    disk.SetBoot(target, hasBoot).SetRoot(target, true)
  }

  lemma FormattedState(d: Device, target: Slot, hasBoot: bool)
    requires target.A? || target.B?
    ensures After(d, target, hasBoot, 3) == Device(d.env, d.disk.SetBoot(target, false).SetRoot(target, false))
  {
    assert Plan(hasBoot)[..0] == [];
    AfterNext(d, target, hasBoot, 0);
    AfterNext(d, target, hasBoot, 1);
    AfterNext(d, target, hasBoot, 2);
  }

  /** The disk after section 7, which writes the boot partition if the package brings one. */
  lemma BootWrittenState(d: Device, target: Slot)
    requires target.A? || target.B?
    ensures After(d, target, true, 6) == Device(d.env, d.disk.SetBoot(target, true).SetRoot(target, false))
  {
    FormattedState(d, target, true);
    AfterNext(d, target, true, 3);
    AfterNext(d, target, true, 4);
    AfterNext(d, target, true, 5);
  }

  /** Sections 8 and 9, with and without section 7 before them. */
  lemma RootWrittenBehindBoot(d: Device, target: Slot)
    requires target.A? || target.B?
    ensures After(d, target, true, 11) == Device(d.env, Rewritten(d.disk, target, true))
  {
    BootWrittenState(d, target);
    AfterNext(d, target, true, 6);
    AfterNext(d, target, true, 7);
    AfterNext(d, target, true, 8);
    AfterNext(d, target, true, 9);
    AfterNext(d, target, true, 10);
  }

  lemma RootWrittenAlone(d: Device, target: Slot)
    requires target.A? || target.B?
    ensures After(d, target, false, 8) == Device(d.env, Rewritten(d.disk, target, false))
  {
    FormattedState(d, target, false);
    AfterNext(d, target, false, 3);
    AfterNext(d, target, false, 4);
    AfterNext(d, target, false, 5);
    AfterNext(d, target, false, 6);
    AfterNext(d, target, false, 7);
  }

  lemma PreludeState(d: Device, target: Slot, hasBoot: bool)
    requires target.A? || target.B?
    ensures After(d, target, hasBoot, Prelude(hasBoot)) == Device(d.env, Rewritten(d.disk, target, hasBoot))
  {
    if hasBoot { RootWrittenBehindBoot(d, target); } else { RootWrittenAlone(d, target); }
  }

  /** The other slot, as the boot script falls back. */
  function Opposite(s: Slot): Slot { if s.A? then B else A }

  lemma OneCommand(d: Device, target: Slot, c: Command)
    requires target.A? || target.B?
    requires !c.SetSlot? && !c.SetAttempt? && !c.SetOk?
    ensures Execute(d, target, c).env == d.env
    ensures Execute(d, target, c).disk.Complete(Opposite(target)) == d.disk.Complete(Opposite(target))
  {
  }

  /** Until the first fw_setenv neither the environment nor the other slot is touched. */
  lemma {:induction false} PreludeKeepsOtherSlot(d: Device, target: Slot, hasBoot: bool, cut: nat)
    requires target.A? || target.B?
    requires cut <= Prelude(hasBoot)
    ensures After(d, target, hasBoot, cut).env == d.env
    ensures After(d, target, hasBoot, cut).disk.Complete(Opposite(target)) == d.disk.Complete(Opposite(target))
  {
    if cut > 0 {
      PreludeKeepsOtherSlot(d, target, hasBoot, cut - 1);
      AfterNext(d, target, hasBoot, cut - 1);
      OneCommand(After(d, target, hasBoot, cut - 1), target, Plan(hasBoot)[cut - 1]);
    } else {
      assert Plan(hasBoot)[..0] == [];
    }
  }

  /** The environment a finished installation leaves behind. */
  function Installed(e: Env, target: Slot): Env { e.(slot := target, attempt := UPDATE_ATTEMPTS, confirmed := false) }

  /** The three states around the fw_setenv calls. */
  lemma EnvironmentStates(d: Device, target: Slot, hasBoot: bool)
    requires target.A? || target.B?
    ensures var n, disk := Prelude(hasBoot), Rewritten(d.disk, target, hasBoot);
            && After(d, target, hasBoot, n + 1) == Device(d.env.(slot := target), disk)
            && After(d, target, hasBoot, n + 2) == Device(d.env.(slot := target, attempt := UPDATE_ATTEMPTS), disk)
            && After(d, target, hasBoot, n + 3) == Device(Installed(d.env, target), disk)
  {
    PreludeState(d, target, hasBoot);
    AfterNext(d, target, hasBoot, Prelude(hasBoot));
    AfterNext(d, target, hasBoot, Prelude(hasBoot) + 1);
    AfterNext(d, target, hasBoot, Prelude(hasBoot) + 2);
  }

  lemma FirstFormat(d: Device, target: Slot, hasBoot: bool)
    requires target.A? || target.B?
    ensures After(d, target, hasBoot, 1) == Device(d.env, d.disk.SetBoot(target, false))
  {
    assert Plan(hasBoot)[..0] == [];
    AfterNext(d, target, hasBoot, 0);
  }

  /**
    What a caller could check beforehand: the boot that would follow now is of another, complete slot, the
    package brings a boot partition, and if the attempts of slot a are used up then slot b is complete too,
    since between the first two fw_setenv calls the script would give slot a up at once.
  */
  predicate SafeToInstall(d: Device, target: Slot, hasBoot: bool) {
    var next := BootOnce(d.env).slot;
    && next != target
    && d.disk.Complete(next)
    && (d.env.recoveryMode || (hasBoot && (target.A? && !d.env.confirmed && d.env.attempt <= 1 ==> d.disk.Complete(B))))
  }

  lemma SafeSurvives(d: Device, target: Slot, hasBoot: bool, cut: nat)
    requires target.A? || target.B?
    requires cut <= |Plan(hasBoot)| && SafeToInstall(d, target, hasBoot)
    ensures BootsComplete(After(d, target, hasBoot, cut))
  {
    if cut <= Prelude(hasBoot) {
      PreludeKeepsOtherSlot(d, target, hasBoot, cut);
    } else {
      EnvironmentStates(d, target, hasBoot);
    }
  }

  /** Exactly when no power cut, at any command boundary, makes the next boot one of a half-written slot. */
  lemma CutSafetyExactly(d: Device, target: Slot, hasBoot: bool)
    requires target.A? || target.B?
    ensures SurvivesAnyCut(d, target, hasBoot) <==> SafeToInstall(d, target, hasBoot)
  {
    if SafeToInstall(d, target, hasBoot) {
      forall cut: nat | cut <= |Plan(hasBoot)| ensures BootsComplete(After(d, target, hasBoot, cut)) {
        SafeSurvives(d, target, hasBoot, cut);
      }
    }
    if SurvivesAnyCut(d, target, hasBoot) {
      var n := Prelude(hasBoot);
      PreludeKeepsOtherSlot(d, target, hasBoot, 0);
      FirstFormat(d, target, hasBoot);
      EnvironmentStates(d, target, hasBoot);
      assert Plan(hasBoot)[..0] == [];
      assert BootsComplete(After(d, target, hasBoot, 0));
      assert BootsComplete(After(d, target, hasBoot, 1));
      assert BootsComplete(After(d, target, hasBoot, n + 1));
      assert BootsComplete(After(d, target, hasBoot, n + 3));
    }
  }

  // ---- The program ----

  /** The commands executed among those issued, if power fails after `cut` of them. */
  function Taken(issued: seq<Command>, cut: nat): seq<Command> { if cut < |issued| then issued[..cut] else issued }

  lemma TakenNext(d: Device, target: Slot, issued: seq<Command>, cut: nat, c: Command)
    ensures ExecuteAll(d, target, Taken(issued + [c], cut)) ==
            if |issued| < cut then Execute(ExecuteAll(d, target, Taken(issued, cut)), target, c)
            else ExecuteAll(d, target, Taken(issued, cut))
  {
    if |issued| < cut {
      ExecuteLast(d, target, issued, c);
      assert Taken(issued + [c], cut) == issued + [c];
    } else {
      assert Taken(issued + [c], cut) == Taken(issued, cut);
    }
  }

  lemma PlanInSections(hasBoot: bool)
    ensures var first := [] + [FormatBoot, FormatRoot, Extract];
            (if hasBoot then first + [MountBoot, UntarBoot, UnmountBoot] else first)
            + [MountRoot, UntarRoot, PostInstall, UnmountRoot] + [Cleanup] + [SetSlot, SetAttempt, SetOk]
            == Plan(hasBoot)
  {
  }

  lemma InstallOutcome(d: Device, target: Slot, hasBoot: bool, cut: nat)
    requires target.A? || target.B?
    requires cut <= |Plan(hasBoot)|
    ensures var after := After(d, target, hasBoot, cut);
            && (cut <= Prelude(hasBoot) ==>
                  after.env == d.env && after.disk.Complete(Opposite(target)) == d.disk.Complete(Opposite(target)))
            && (cut == |Plan(hasBoot)| ==>
                  after == Device(Installed(d.env, target), Rewritten(d.disk, target, hasBoot)))
            && (SafeToInstall(d, target, hasBoot) ==> BootsComplete(after))
  {
    if cut <= Prelude(hasBoot) { PreludeKeepsOtherSlot(d, target, hasBoot, cut); }
    EnvironmentStates(d, target, hasBoot);
    if SafeToInstall(d, target, hasBoot) { SafeSurvives(d, target, hasBoot, cut); }
  }

  /** The running machine, whose flash the commands change one by one until the power fails. */
  class Machine {
    var env: Env
    var disk: Disk
    var power: nat                     // commands left to execute
    ghost var issued: seq<Command>     // commands the program has reached

    ghost function State(): Device
      reads this
    {
      Device(env, disk)
    }

    constructor (d: Device)
      ensures State() == d
    {
      env, disk, power, issued := d.env, d.disk, 0, [];
    }

    /** Where the machine stands, having started from d with power for `cut` commands. */
    ghost predicate At(d: Device, target: Slot, cut: nat)
      reads this
    {
      && State() == ExecuteAll(d, target, Taken(issued, cut))
      && power == if |issued| < cut then cut - |issued| else 0
    }

    /** One command, lost if the power is gone. */
    method Run(target: Slot, c: Command, ghost d: Device, ghost cut: nat)
      requires At(d, target, cut)
      modifies this
      ensures At(d, target, cut) && issued == old(issued) + [c]
    {
      TakenNext(d, target, issued, cut, c);
      issued := issued + [c];
      if power == 0 { return; }
      power := power - 1;
      match c {
        case FormatBoot => disk := disk.SetBoot(target, false);
        case FormatRoot => disk := disk.SetRoot(target, false);
        case UnmountBoot => disk := disk.SetBoot(target, true);
        case UnmountRoot => disk := disk.SetRoot(target, true);
        case SetSlot => env := env.(slot := target);
        case SetAttempt => env := env.(attempt := UPDATE_ATTEMPTS);
        case SetOk => env := env.(confirmed := false);
        case _ =>
      }
    }

    method FormatAndExtract(target: Slot, ghost d: Device, ghost cut: nat)
      requires At(d, target, cut)
      modifies this
      ensures At(d, target, cut) && issued == old(issued) + [FormatBoot, FormatRoot, Extract]
    {
      Run(target, FormatBoot, d, cut);
      Run(target, FormatRoot, d, cut);
      Run(target, Extract, d, cut);
    }

    method WriteBoot(target: Slot, ghost d: Device, ghost cut: nat)
      requires At(d, target, cut)
      modifies this
      ensures At(d, target, cut) && issued == old(issued) + [MountBoot, UntarBoot, UnmountBoot]
    {
      Run(target, MountBoot, d, cut);
      Run(target, UntarBoot, d, cut);
      Run(target, UnmountBoot, d, cut);
    }

    method WriteRoot(target: Slot, ghost d: Device, ghost cut: nat)
      requires At(d, target, cut)
      modifies this
      ensures At(d, target, cut) && issued == old(issued) + [MountRoot, UntarRoot, PostInstall, UnmountRoot]
    {
      Run(target, MountRoot, d, cut);
      Run(target, UntarRoot, d, cut);
      Run(target, PostInstall, d, cut);
      Run(target, UnmountRoot, d, cut);
    }

    method SelectSlot(target: Slot, ghost d: Device, ghost cut: nat)
      requires At(d, target, cut)
      modifies this
      ensures At(d, target, cut) && issued == old(issued) + [SetSlot, SetAttempt, SetOk]
    {
      Run(target, SetSlot, d, cut);
      Run(target, SetAttempt, d, cut);
      Run(target, SetOk, d, cut);
    }

    /** The sections of bb_update_install in order, losing power after `cut` commands. */
    method Sections(target: Slot, hasBoot: bool, cut: nat)
      requires cut <= |Plan(hasBoot)|
      modifies this
      ensures State() == After(old(State()), target, hasBoot, cut)
    {
      ghost var d := State();
      power, issued := cut, [];
      FormatAndExtract(target, d, cut);
      if hasBoot { WriteBoot(target, d, cut); }
      WriteRoot(target, d, cut);
      Run(target, Cleanup, d, cut);
      SelectSlot(target, d, cut);
      PlanInSections(hasBoot);
      assert Taken(Plan(hasBoot), cut) == Plan(hasBoot)[..cut];
    }

    /**
      bb_update_install, losing power after `cut` commands. Until the fw_setenv calls it leaves the environment
      and the other slot alone, complete it leaves the new slot selected with its tries, and begun on a device
      that is safe to install on it leaves one that boots a complete slot, wherever it is cut.
    */
    method Install(target: Slot, hasBoot: bool, cut: nat)
      requires target.A? || target.B?
      requires cut <= |Plan(hasBoot)|
      modifies this
      ensures cut <= Prelude(hasBoot) ==>
                env == old(env) && disk.Complete(Opposite(target)) == old(disk).Complete(Opposite(target))
      ensures cut == |Plan(hasBoot)| ==>
                env == Installed(old(env), target) && disk == Rewritten(old(disk), target, hasBoot)
      ensures SafeToInstall(old(State()), target, hasBoot) ==> BootsComplete(State())
    {
      ghost var d := State();
      Sections(target, hasBoot, cut);
      InstallOutcome(d, target, hasBoot, cut);
    }
  }

  // ---- The first installation of a confirmed boot, and the second ----

  /** The environment of a running system: what the boot script left, boot_ok set by the boot confirmation. */
  function Confirmed(e: Env): Env { BootOnce(e).env.(confirmed := true) }

  /** In a confirmed boot of a complete slot, an automatic installation with a boot partition is safe throughout. */
  lemma FirstInstallIsSafe(before: Env, disk: Disk)
    requires BootOnce(before).slot.A? || BootOnce(before).slot.B?
    requires disk.Complete(BootOnce(before).slot)
    ensures SurvivesAnyCut(Device(Confirmed(before), disk), AutoTarget(BootOnce(before).slot), true)
  {
    CutSafetyExactly(Device(Confirmed(before), disk), AutoTarget(BootOnce(before).slot), true);
  }

  /**
    A second one before the reboot never is: boot_slot names the slot that is formatted next, while the choice
    of the target still follows the running slot.
  */
  lemma SecondInstallIsNot(before: Env, disk: Disk, hasBoot: bool)
    requires BootOnce(before).slot.A? || BootOnce(before).slot.B?
    requires !before.recoveryMode
    ensures var target := AutoTarget(BootOnce(before).slot);
            var d := After(Device(Confirmed(before), disk), target, true, |Plan(true)|);
            d.disk.Complete(target) && !SurvivesAnyCut(d, target, hasBoot)
  {
    var target := AutoTarget(BootOnce(before).slot);
    EnvironmentStates(Device(Confirmed(before), disk), target, true);
    CutSafetyExactly(After(Device(Confirmed(before), disk), target, true, |Plan(true)|), target, hasBoot);
  }

  // ---- The boots after a cut ----

  /** During the prelude the target is half-written from the first format until its last partition is unmounted. */
  predicate HalfWrittenAt(hasBoot: bool, cut: nat) { 1 <= cut && !(hasBoot && cut + 1 >= Prelude(hasBoot)) }

  /** The root partition stays unwritten from its format to its unmount, the last command but one of the prelude. */
  lemma {:induction false} RootUnwritten(d: Device, target: Slot, cut: nat)
    requires target.A? || target.B?
    requires 2 <= cut < Prelude(true) - 1
    ensures var disk := After(d, target, true, cut).disk; if target.A? then !disk.rootA else !disk.rootB
  {
    AfterNext(d, target, true, cut - 1);
    if cut > 2 { RootUnwritten(d, target, cut - 1); }
  }

  lemma HalfWrittenWithBoot(d: Device, target: Slot, cut: nat)
    requires target.A? || target.B?
    requires 1 <= cut <= Prelude(true)
    ensures After(d, target, true, cut).disk.Complete(target) <==> !HalfWrittenAt(true, cut)
  {
    if cut == 1 {
      FirstFormat(d, target, true);
    } else if cut < Prelude(true) - 1 {
      RootUnwritten(d, target, cut);
    } else {
      AfterNext(d, target, true, Prelude(true) - 1);
      PreludeState(d, target, true);
    }
  }

  /** Without boot.tar.gz the boot partition is formatted and never written again. */
  lemma {:induction false} HalfWrittenWithoutBoot(d: Device, target: Slot, cut: nat)
    requires target.A? || target.B?
    requires 1 <= cut <= Prelude(false)
    ensures !After(d, target, false, cut).disk.Complete(target)
    ensures if target.A? then !After(d, target, false, cut).disk.bootA else !After(d, target, false, cut).disk.bootB
  {
    if cut == 1 {
      FirstFormat(d, target, false);
    } else {
      HalfWrittenWithoutBoot(d, target, cut - 1);
      AfterNext(d, target, false, cut - 1);
    }
  }

  lemma HalfWrittenExactly(d: Device, target: Slot, hasBoot: bool, cut: nat)
    requires target.A? || target.B?
    requires 1 <= cut <= Prelude(hasBoot)
    ensures After(d, target, hasBoot, cut).disk.Complete(target) <==> !HalfWrittenAt(hasBoot, cut)
  {
    if hasBoot { HalfWrittenWithBoot(d, target, cut); } else { HalfWrittenWithoutBoot(d, target, cut); }
  }

  /** With a boot_limit of 1 slot b, once given up, alternates with recovery, and slot a is never tried. */
  lemma {:induction false} LimitOneNeverBootsA(e: Env, k: nat)
    requires e.slot.B? && e.confirmed && !e.recoveryMode && e.limit == 1
    ensures EnvBefore(e, k + 1) == Env(if k % 2 == 0 then B else Recovery, false, 1, 1, false)
    ensures Booted(e, k) == if k % 2 == 0 then B else Recovery
  {
    if k > 0 { LimitOneNeverBootsA(e, k - 1); }
  }

  /** The running system keeps its boot_limit, and no recovery request appears by itself. */
  lemma {:induction false} ConfirmedEnv(e: Env, k: nat)
    ensures EnvBefore(e, k).limit == e.limit
    ensures !e.recoveryMode ==> !EnvBefore(e, k).recoveryMode
  {
    if k > 0 { ConfirmedEnv(e, k - 1); }
  }

  /** What follows the boots of a confirmed slot b and of recovery. */
  lemma AfterRecovery(e: Env)
    requires e.slot.B? && e.confirmed && !e.recoveryMode && e.limit >= 2
    ensures Booted(e, e.limit + 1) == A
  {
    var L := e.limit;
    ConfirmedSlotKept(e, L);
    assert EnvBefore(e, L + 1) == BootOnce(EnvBefore(e, L)).env;
    ConfirmedEnv(e, L);
  }

  /**
    An installation in a confirmed boot, cut while the target is half-written, and no confirmation afterwards:
    the first boot of the half-written slot is exactly boot number L for a running slot a, number L + 1 (after
    recovery) for a running slot b, counting from 0; with L = 1 and slot b running it never comes.
  */
  lemma FirstHalfWrittenBoot(before: Env, disk: Disk, hasBoot: bool, cut: nat, k: nat)
    requires BootOnce(before).slot.A? || BootOnce(before).slot.B?
    requires disk.Complete(BootOnce(before).slot) && !before.recoveryMode && before.limit >= 1
    requires cut <= Prelude(hasBoot) && HalfWrittenAt(hasBoot, cut)
    ensures var running, L := BootOnce(before).slot, before.limit;
            var d := After(Device(Confirmed(before), disk), AutoTarget(running), hasBoot, cut);
            var complete := d.disk.Complete(Booted(d.env, k));
            && (running.A? ==> (k < L ==> complete) && (k == L ==> !complete))
            && (running.B? && L >= 2 ==> (k <= L ==> complete) && (k == L + 1 ==> !complete))
            && (running.B? && L == 1 ==> complete)
  {
    var running := BootOnce(before).slot;
    var d := Device(Confirmed(before), disk);
    PreludeKeepsOtherSlot(d, AutoTarget(running), hasBoot, cut);
    HalfWrittenExactly(d, AutoTarget(running), hasBoot, cut);
    if k <= before.limit { ConfirmedSlotKept(d.env, k); }
    if running.B? {
      if before.limit == 1 { LimitOneNeverBootsA(d.env, k); } else { AfterRecovery(d.env); }
    }
  }

  // ---- Rollback ----

  /**
    An update that is never confirmed is booted twice, whatever boot_limit says. Then the other slot follows
    only if the update went to slot a; after an update of slot b comes recovery, and slot a only behind it.
  */
  lemma Rollback(d: Device, target: Slot, hasBoot: bool, k: nat)
    requires target.A? || target.B?
    requires !d.env.recoveryMode && k <= 3
    ensures var e := After(d, target, hasBoot, |Plan(hasBoot)|).env;
            && (k < 2 ==> Booted(e, k) == target)
            && (k == 2 ==> Booted(e, k) == if target.A? then B else Recovery)
            && (k == 3 && target.B? ==> Booted(e, k) == if d.env.limit >= 2 then A else B)
  {
    EnvironmentStates(d, target, hasBoot);
    var e := Installed(d.env, target);
    assert EnvBefore(e, 0) == e;
    assert EnvBefore(e, 1) == BootOnce(e).env;
    assert EnvBefore(e, 2) == BootOnce(EnvBefore(e, 1)).env;
    assert EnvBefore(e, 3) == BootOnce(EnvBefore(e, 2)).env;
  }
}
