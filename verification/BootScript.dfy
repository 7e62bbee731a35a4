/** Slot selection of deploy/boot/boot.cmd: attempt counter, fallback and recovery. */
module BootScript {
  import opened Common

  datatype Slot = A | B | Recovery | Other

  /** The variables the script tests: `confirmed` is boot_ok being anything but "0". */
  datatype Env = Env(slot: Slot, confirmed: bool, attempt: int, limit: int, recoveryMode: bool)

  datatype Boot = Boot(slot: Slot, env: Env)

  // ---- Specification, section by section ----

  function ForcedRecovery(e: Env): Env { if e.recoveryMode then e.(slot := Recovery) else e }

  function ValidSlot(e: Env): Env {
    if e.slot.A? || e.slot.B? then e else e.(slot := A, attempt := e.limit, confirmed := false)
  }

  function CountAttempt(e: Env): Env {
    if e.confirmed then e.(attempt := e.limit, confirmed := false)
    else if e.attempt <= 1 then e.(slot := if e.slot.A? then B else Recovery, attempt := e.limit, confirmed := false)
    else e.(attempt := e.attempt - 1)
  }

  /** One run of the script: the slot it boots and the environment it leaves behind. */
  function BootOnce(e: Env): Boot {
    var e' := CountAttempt(ValidSlot(ForcedRecovery(e)));
    Boot(e'.slot, e')
  }

  /** What one run writes to flash: an invalid slot is repaired and saved before the attempt is counted. */
  function Saves(e: Env): seq<Env> {
    var forced := ForcedRecovery(e);
    (if forced.slot.A? || forced.slot.B? then [] else [ValidSlot(forced)]) + [BootOnce(e).env]
  }

  /** The program: a loaded copy of the environment edited in place and saved where the script saves it. */
  class BootLoader {
    var saved: Env      // in flash
    var env: Env        // loaded copy

    constructor (flash: Env)
      ensures saved == env == flash
    {
      saved, env := flash, flash;
    }

    /** `saves` lists what the script writes to flash, in order. */
    method Run() returns (booted: Slot, ghost saves: seq<Env>)
      modifies this
      ensures booted == BootOnce(old(saved)).slot
      ensures saved == env == BootOnce(old(saved)).env
      ensures saves == Saves(old(saved))
    {
      env, saves := saved, [];
      if env.recoveryMode { env := env.(slot := Recovery); }
      if env.slot != A && env.slot != B {
        env := env.(slot := A);
        env := env.(attempt := env.limit);
        env := env.(confirmed := false);
        saved, saves := env, saves + [env];
      }
      if !env.confirmed {
        if env.attempt <= 1 {
          if env.slot == A { env := env.(slot := B); } else { env := env.(slot := Recovery); }
          env := env.(attempt := env.limit);
          env := env.(confirmed := false);
          saved, saves := env, saves + [env];
        } else {
          env := env.(attempt := env.attempt - 1);
          saved, saves := env, saves + [env];
        }
      } else {
        env := env.(attempt := env.limit);
        env := env.(confirmed := false);
        saved, saves := env, saves + [env];
      }
      booted := env.slot;
    }
  }

  /**
    A power cut between two saves changes nothing: from what is in flash then, the next run boots the slot
    this one would have booted and leaves the same environment.
  */
  lemma CutBetweenSaves(e: Env, i: nat)
    requires i + 1 < |Saves(e)|
    ensures BootOnce(Saves(e)[i]) == BootOnce(e)
  {
  }

  // ---- When recovery is booted ----

  /** Recovery is reached in one way only: slot b, unconfirmed, with its attempts used up. */
  lemma RecoveryExactly(e: Env)
    ensures BootOnce(e).slot == Recovery <==> !e.recoveryMode && e.slot == B && !e.confirmed && e.attempt <= 1
  {
  }

  // ---- Runs without confirmation ----

  /** The environment before boot number k, nothing confirming in between. */
  function EnvBefore(e: Env, k: nat): Env {
    if k == 0 then e else BootOnce(EnvBefore(e, k - 1)).env
  }

  function Booted(e: Env, k: nat): Slot { BootOnce(EnvBefore(e, k)).slot }

  /** With the flag set the script never reaches recovery: section 3 turns the request into slot a, for ever. */
  lemma {:induction false} RecoveryFlagNeverHonoured(e: Env, k: nat)
    requires e.recoveryMode
    ensures Booted(e, k) == if e.limit >= 2 then A else B
    ensures EnvBefore(e, k).recoveryMode && EnvBefore(e, k).limit == e.limit
  {
    if k > 0 { RecoveryFlagNeverHonoured(e, k - 1); }
  }

  /** Position m of the cycle b, ..., b, recovery, a, ..., a of length 2L: the environment after that boot. */
  function CycleEnv(limit: int, m: nat): Env
    requires limit >= 1 && m < 2 * limit
  {
    if m < limit then Env(B, false, limit - m, limit, false)
    else if m == limit then Env(Recovery, false, limit, limit, false)
    else Env(A, false, 2 * limit - m, limit, false)
  }

  lemma CycleStep(limit: int, m: nat)
    requires limit >= 1 && m < 2 * limit
    ensures var next := if m + 1 < 2 * limit then m + 1 else 0;
            BootOnce(CycleEnv(limit, m)) == Boot(CycleEnv(limit, next).slot, CycleEnv(limit, next))
  {
  }

  /** Boots of slot a left before the script gives it up. */
  function BootsLeft(attempt: int): nat { if attempt > 1 then attempt - 1 else 0 }

  lemma {:induction false} CountsDown(e: Env, k: nat)
    requires (e.slot.A? || e.slot.B?) && !e.confirmed && !e.recoveryMode && k <= BootsLeft(e.attempt)
    ensures EnvBefore(e, k) == e.(attempt := e.attempt - k)
  {
    if k > 0 { CountsDown(e, k - 1); }
  }

  lemma RemainderIs(a: nat, n: nat, q: nat, r: nat)
    requires r < n && a == n * q + r
    ensures a % n == r
  {
    assert a == n * (a / n) + a % n;
    Gap(n, q, a / n);
    Gap(n, a / n, q);
  }

  lemma NextPosition(i: nat, n: nat)
    requires n >= 1
    ensures (i + 1) % n == if i % n + 1 < n then i % n + 1 else 0
  {
    var q, r := i / n, i % n;
    assert i == n * q + r;
    if r + 1 < n {
      RemainderIs(i + 1, n, q, r + 1);
    } else {
      assert n * (q + 1) == n * q + n;
      RemainderIs(i + 1, n, q + 1, 0);
    }
  }

  lemma {:induction false} InCycle(e: Env, i: nat)
    requires e.slot == A && !e.confirmed && !e.recoveryMode && e.limit >= 1
    ensures EnvBefore(e, BootsLeft(e.attempt) + i + 1) == CycleEnv(e.limit, i % (2 * e.limit))
  {
    var n, a := 2 * e.limit, BootsLeft(e.attempt);
    if i == 0 {
      CountsDown(e, a);
      RemainderIs(0, n, 0, 0);
    } else {
      InCycle(e, i - 1);
      NextPosition(i - 1, n);
      CycleStep(e.limit, (i - 1) % n);
    }
  }

  /** What boot number k of an unconfirmed run boots, read off directly. */
  function Scheduled(attempt: int, limit: int, k: nat): Slot
    requires limit >= 1
  {
    var a := BootsLeft(attempt);
    if k < a then A
    else
      var m := (k - a) % (2 * limit);
      if m < limit then B else if m == limit then Recovery else A
  }

  /**
    For every boot_limit L >= 1, an unconfirmed run from slot a with attempt n boots a exactly max(n - 1, 0)
    times, then b exactly L times, then recovery once, then a L - 1 times, and so on with period 2L.
  */
  lemma UnconfirmedSchedule(e: Env, k: nat)
    requires e.slot == A && !e.confirmed && !e.recoveryMode && e.limit >= 1
    ensures Booted(e, k) == Scheduled(e.attempt, e.limit, k)
  {
    var a := BootsLeft(e.attempt);
    if k < a {
      CountsDown(e, k);
    } else {
      InCycle(e, k - a);
      assert BootOnce(EnvBefore(e, k)).env == EnvBefore(e, k + 1);
    }
  }

  lemma {:induction false} ShiftRun(e: Env, k: nat)
    ensures EnvBefore(e, k + 1) == EnvBefore(BootOnce(e).env, k)
  {
    if k > 0 { ShiftRun(e, k - 1); }
  }

  /** A confirmed slot is left only after exactly `limit` consecutive unconfirmed boots of it. */
  lemma ConfirmedSlotKept(e: Env, k: nat)
    requires (e.slot.A? || e.slot.B?) && e.confirmed && !e.recoveryMode && e.limit >= 1 && k <= e.limit
    ensures Booted(e, k) == if k < e.limit then e.slot else if e.slot.A? then B else Recovery
  {
    if k > 0 {
      var first := BootOnce(e).env;
      assert first == e.(attempt := e.limit, confirmed := false);
      ShiftRun(e, k - 1);
      CountsDown(first, k - 1);
    }
  }
}
