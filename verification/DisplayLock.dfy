/** Handing the display over between Chromium OS and any number of X servers, each of which has
    src/freon.c loaded: whoever wants the display locks a file, asks Chromium OS to let go, and
    asks it to take over again before unlocking.  flock and the D-Bus calls succeed; processes may
    die at any time. */
module DisplayLock {
  import opened Options

  // ---- The protocol, one step of one process at a time ----

  /** Where a process is.  Idle: no lock file open.  Waiting: in flock.  Locked: has the lock, and
      will tell Chromium OS to drop control.  Owner: has done so.  Reclaiming: an owner that is
      about to do so once more.  Releasing: has given control back, and will unlock. */
  datatype Stage = Idle | Waiting | Locked | Owner | Reclaiming | Releasing

  /** The processes by number; those not in the map are idle. */
  datatype System = System(stages: map<nat, Stage>, holder: Option<nat>, chromium: bool)

  datatype Step =
    | BeginClaim(p: nat)
    | Acquire(p: nat)
    | DropControl(p: nat)
    | TakeControl(p: nat)
    | Unlock(p: nat)
    | Death(p: nat)

  const BOOT: System := System(map[], None, true)

  function StageOf(s: System, p: nat): Stage {
    if p in s.stages then s.stages[p] else Idle
  }

  function Move(s: System, p: nat, stage: Stage): System {
    s.(stages := s.stages[p := stage])
  }

  predicate Enabled(s: System, step: Step) {
    match step
    case BeginClaim(p) => StageOf(s, p).Idle? || StageOf(s, p).Owner?
    case Acquire(p) => StageOf(s, p).Waiting? && s.holder.None?
    case DropControl(p) => StageOf(s, p).Locked? || StageOf(s, p).Reclaiming?
    case TakeControl(p) => StageOf(s, p).Owner?
    case Unlock(p) => StageOf(s, p).Releasing?
    case Death(_) => true
  }

  /** If a process dies, the kernel drops its lock. */
  function Die(s: System, p: nat): System {
    Move(s, p, Idle).(holder := if s.holder == Some(p) then None else s.holder)
  }

  function Next(s: System, step: Step): System {
    if !Enabled(s, step) then s
    else
      match step
      case BeginClaim(p) => Move(s, p, if StageOf(s, p).Owner? then Reclaiming else Waiting)
      case Acquire(p) => Move(s, p, Locked).(holder := Some(p))
      case DropControl(p) => Move(s, p, Owner).(chromium := false)
      case TakeControl(p) => Move(s, p, Releasing).(chromium := true)
      case Unlock(p) => Move(s, p, Idle).(holder := None)
      case Death(p) => Die(s, p)
  }

  /** Any interleaving of the processes' steps; a step that is not enabled does nothing. */
  function Run(s: System, steps: seq<Step>): System {
    if steps == [] then s else Next(Run(s, steps[..|steps| - 1]), steps[|steps| - 1])
  }

  // ---- Who is in control ----

  datatype Controller = ChromiumOS | Chroot(p: nat)

  predicate Controls(s: System, c: Controller) {
    match c
    case ChromiumOS => s.chromium
    case Chroot(p) => StageOf(s, p).Owner? || StageOf(s, p).Reclaiming?
  }

  predicate HasLock(stage: Stage) {
    !stage.Idle? && !stage.Waiting?
  }

  /** Whether the display belongs to nobody after the steps: a process died that was in control of
      it, and since then none has told Chromium OS to drop control. */
  predicate Orphaned(steps: seq<Step>) {
    steps != []
    && var before, step := steps[..|steps| - 1], steps[|steps| - 1];
       var s := Run(BOOT, before);
       if step.Death? && Controls(s, Chroot(step.p)) then true
       else Orphaned(before) && !(step.DropControl? && Enabled(s, step))
  }

  /** The lock and the display, which belongs to nobody if it is lost. */
  ghost predicate Safe(s: System, lost: bool) {
    && (forall p: nat :: HasLock(StageOf(s, p)) <==> s.holder == Some(p))
    && (s.chromium <==>
          !lost && (s.holder.None? || StageOf(s, s.holder.value).Locked? || StageOf(s, s.holder.value).Releasing?))
    && (lost ==> s.holder.None? || StageOf(s, s.holder.value).Locked?)
  }

  lemma StagesMoved(s: System, p: nat, stage: Stage)
    ensures forall q: nat :: StageOf(Move(s, p, stage), q) == if q == p then stage else StageOf(s, q)
  {
  }

  lemma StepIsSafe(s: System, lost: bool, step: Step)
    requires Safe(s, lost)
    ensures Safe(Next(s, step), if step.Death? && Controls(s, Chroot(step.p)) then true
                                else lost && !(step.DropControl? && Enabled(s, step)))
  {
    StagesMoved(s, step.p, StageOf(Next(s, step), step.p));
  }

  lemma {:induction false} RunIsSafe(steps: seq<Step>)
    ensures Safe(Run(BOOT, steps), Orphaned(steps))
  {
    if steps != [] {
      RunIsSafe(steps[..|steps| - 1]);
      hide Safe, Next, Enabled, Controls;
      StepIsSafe(Run(BOOT, steps[..|steps| - 1]), Orphaned(steps[..|steps| - 1]), steps[|steps| - 1]);
    }
  }

  lemma WhoControls(s: System, lost: bool)
    requires Safe(s, lost)
    ensures (exists c :: Controls(s, c)) <==> !lost
    ensures forall c, d :: Controls(s, c) && Controls(s, d) ==> c == d
  {
    if s.chromium {
      assert Controls(s, ChromiumOS);
    } else if !lost {
      assert Controls(s, Chroot(s.holder.value));
    }
  }

  /** In every run, with deaths at any time, never more than one of Chromium OS and the chroots is
      in control; and one is, exactly unless the display is orphaned.  If it is not, then Chromium
      OS is in control whenever nobody has the lock. */
  lemma OneInControl(steps: seq<Step>)
    ensures var s := Run(BOOT, steps);
            && (forall c, d :: Controls(s, c) && Controls(s, d) ==> c == d)
            && ((exists c :: Controls(s, c)) <==> !Orphaned(steps))
            && (s.holder.None? ==> (s.chromium <==> !Orphaned(steps)))
  {
    hide Run, Orphaned;
    RunIsSafe(steps);
    WhoControls(Run(BOOT, steps), Orphaned(steps));
  }

  /** Where nobody dies who is in control, somebody always is. */
  lemma {:induction false} NeverOrphaned(steps: seq<Step>)
    requires forall i :: 0 <= i < |steps| && steps[i].Death? ==> !Controls(Run(BOOT, steps[..i]), Chroot(steps[i].p))
    ensures !Orphaned(steps)
  {
    hide Run, Controls;
    if steps != [] {
      var before := steps[..|steps| - 1];
      forall i | 0 <= i < |before| && before[i].Death?
        ensures !Controls(Run(BOOT, before[..i]), Chroot(before[i].p))
      {
        assert before[..i] == steps[..i] && before[i] == steps[i];
      }
      NeverOrphaned(before);
    }
  }

  /** A death leaves the display to nobody exactly if the process was in control of it. */
  lemma DeathIsSafe(s: System, p: nat)
    requires Safe(s, false)
    ensures Safe(Die(s, p), false) <==> !Controls(s, Chroot(p))
    ensures Controls(s, Chroot(p)) ==> forall c :: !Controls(Die(s, p), c)
  {
    StagesMoved(s, p, Idle);
    if Controls(s, Chroot(p)) {
      assert HasLock(StageOf(s, p)) && s.holder == Some(p);
      forall c ensures !Controls(Die(s, p), c) {
        if c.Chroot? && c.p != p {
          assert !HasLock(StageOf(s, c.p));
        }
      }
    }
  }

  // ---- The preloaded library in one process ----

  /** The lock file, and whether Chromium OS has the display. */
  class Shared {
    var holder: Option<nat>
    var chromium: bool

    constructor ()
      ensures holder == None && chromium
    {
      holder, chromium := None, true;
    }
  }

  datatype Request = OpenQry | GetState | RelDisp | Activate | Grab | OtherRequest

  /** What an ioctl on the pretended terminals asks for. */
  predicate IsRelease(request: Request, data: int) {
    (request.RelDisp? && data == 1) || (request.Activate? && data == 0)
  }

  predicate IsClaim(request: Request, data: int) {
    (request.RelDisp? && data == 2) || (request.Activate? && data == 7)
  }

  class Freon {
    const pid: nat
    const shared: Shared
    var lockfd: int
    var tty0fd: int
    var tty7fd: int

    constructor (pid: nat, shared: Shared)
      requires shared.holder != Some(pid)
      ensures this.pid == pid && this.shared == shared && Valid() && lockfd == -1
    {
      this.pid, this.shared := pid, shared;
      lockfd, tty0fd, tty7fd := -1, -1, -1;
    }

    ghost predicate Valid()
      reads this, shared
    {
      lockfd != -1 <==> shared.holder == Some(pid)
    }

    /** The stage of this process between calls. */
    function Stage(): Stage
      reads this
    {
      if lockfd == -1 then Idle else Owner
    }

    /** The whole system, given the stages of the other processes. */
    ghost function Whole(others: map<nat, Stage>): System
      reads this, shared
    {
      System(others[pid := Stage()], shared.holder, shared.chromium)
    }

    /** Locks the file for this process, or unlocks it.  (flock returns when the lock is free.) */
    method SetDisplayLock(claim: bool, newfd: int)
      requires Valid() && newfd != -1
      requires claim && lockfd == -1 ==> shared.holder.None?
      modifies this`lockfd, shared`holder
      ensures Valid()
      ensures claim ==> shared.holder == Some(pid)
      ensures !claim ==> lockfd == -1 && shared.holder == if old(lockfd) == -1 then old(shared.holder) else None
    {
      if lockfd == -1 {
        if !claim {
          return;
        }
        lockfd := newfd;
        shared.holder := Some(pid);
      }
      if !claim {
        lockfd := -1;
        shared.holder := None;
      }
    }

    predicate OnDisplay(fd: int)
      reads this
    {
      fd != tty0fd && fd == tty7fd
    }

    /** The ioctl that X calls.  A claim or a release of the display is a run of the protocol's
        steps; anything else is answered without touching the display.  (A claim waits in flock
        until the lock is free.) */
    method Ioctl(fd: int, request: Request, data: int, newfd: int, ghost others: map<nat, Stage>)
      returns (answer: Option<int>)
      requires Valid() && newfd != -1
      requires OnDisplay(fd) && ((request.RelDisp? && data == 2) || (request.Activate? && data == 7))
              ==> lockfd != -1 || shared.holder.None?
      modifies this`lockfd, shared
      ensures Valid()
      ensures OnDisplay(fd) && ((request.RelDisp? && data == 1) || (request.Activate? && data == 0))
              ==> Whole(others) == Run(old(Whole(others)), [TakeControl(pid), Unlock(pid)])
      ensures OnDisplay(fd) && ((request.RelDisp? && data == 2) || (request.Activate? && data == 7))
              ==> Whole(others) == Run(old(Whole(others)), [BeginClaim(pid), Acquire(pid), DropControl(pid)])
      ensures !OnDisplay(fd) || !((request.RelDisp? && data in {1, 2}) || (request.Activate? && data in {0, 7}))
              ==> Whole(others) == old(Whole(others))
      ensures answer == if fd == tty0fd && request.OpenQry? then Some(7)
                        else if fd != tty0fd && fd == tty7fd && request.GetState? then Some(0) else None
    {
      ghost var s := Whole(others);
      answer := None;
      if fd == tty0fd {
        if request.OpenQry? {
          answer := Some(7);
        }
      } else if fd == tty7fd {
        if request.GetState? {
          answer := Some(0);
        }
        if IsRelease(request, data) {
          ReleaseSteps(s, pid);
          if lockfd != -1 {
            shared.chromium := true;
            SetDisplayLock(false, newfd);
          }
        } else if IsClaim(request, data) {
          ClaimSteps(s, pid);
          SetDisplayLock(true, newfd);
          shared.chromium := false;
        }
      }
    }
  }

  lemma RunTwo(s: System, a: Step, b: Step)
    ensures Run(s, [a, b]) == Next(Next(s, a), b)
  {
    assert [a, b][..1] == [a] && [a][..0] == [];
    assert Run(s, [a]) == Next(s, a);
  }

  /** A release in one go. */
  lemma ReleaseSteps(s: System, p: nat)
    requires p in s.stages && (s.stages[p].Idle? || s.stages[p].Owner?)
    ensures Run(s, [TakeControl(p), Unlock(p)])
         == if s.stages[p].Idle? then s else System(s.stages[p := Idle], None, true)
  {
    RunTwo(s, TakeControl(p), Unlock(p));
    assert s.stages[p := Releasing][p := Idle] == s.stages[p := Idle];
  }

  /** A claim in one go, when the lock is free or held already. */
  lemma ClaimSteps(s: System, p: nat)
    requires p in s.stages && (s.stages[p].Idle? || s.stages[p].Owner?)
    requires s.stages[p].Idle? ==> s.holder.None?
    ensures Run(s, [BeginClaim(p), Acquire(p), DropControl(p)])
         == System(s.stages[p := Owner], if s.stages[p].Idle? then Some(p) else s.holder, false)
  {
    var steps := [BeginClaim(p), Acquire(p), DropControl(p)];
    assert steps[..2] == [BeginClaim(p), Acquire(p)];
    RunTwo(s, BeginClaim(p), Acquire(p));
    assert s.stages[p := Waiting][p := Locked][p := Owner] == s.stages[p := Owner];
    assert s.stages[p := Reclaiming][p := Owner] == s.stages[p := Owner];
  }
}
