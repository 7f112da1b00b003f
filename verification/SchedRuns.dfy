/** Runs of the scheduler: every call is one step, taken in any order from the state
    the boot code leaves. */
module SchedRuns {
  import opened Tasks

  datatype Op =
    | Yield
    | Exit
    | Sleep(desc: nat)
    | SleepTimer(interval: int)
    | Wakeup(desc: nat)
    | TimerTick
    | Fork(child: Task, rem: nat, ret: nat)

  /** What the calls ask for: the idle daemon only yields and forks, a wakeup finds
      no more sleepers than its table holds, and forks are those that succeed. */
  ghost predicate Enabled(s: Sched, op: Op, idle: Task)
    requires s.run != []
  {
    match op
    case Yield => true
    case Exit => Current(s) != idle && ExitFits(s, Current(s))
    case Sleep(d) => Current(s) != idle
    case SleepTimer(n) => n > 0 ==> Current(s) != idle
    case Wakeup(d) => |Pick(s.wait, s.pcb, d, true)| <= MAX_WAIT_PROC
    case TimerTick => |Pick(s.timer, Ticked(s.pcb, s.timer), TIMER_ELAPSED, true)| <= MAX_WAIT_PROC
    case Fork(c, rem, ret) => c != 0 && c !in s.pcb && CanFork(s)
  }

  /** As Enabled, given a current task. */
  ghost predicate CanStep(s: Sched, op: Op, idle: Task) {
    s.run != [] && Current(s) in s.pcb && s.noproc > 0 && |s.pids| == ULIMIT && Enabled(s, op, idle)
  }

  /** The yield that ends a call. The run ring is not empty then: the idle daemon is
      on it, as StepInv shows. */
  function Switched(s: Sched): Sched {
    if s.run == [] then s else Yielded(s)
  }

  /** The state a call reaches before it yields, if it does. */
  ghost function Ready(s: Sched, op: Op, idle: Task): Sched
    requires CanStep(s, op, idle)
  {
    match op
    case Yield => s
    case Exit => Exiting(s)
    case Sleep(d) => Waiting(s, d)
    case SleepTimer(n) => if n <= 0 then s else Dozing(s, n)
    case Wakeup(d) => WokenUp(s, d)
    case TimerTick => Tick(s)
    case Fork(c, rem, ret) => Forked(s, c, rem, ret, Success)
  }

  /** The current task leaves the run ring. */
  predicate Leaves(op: Op) { op.Exit? || op.Sleep? || (op.SleepTimer? && op.interval > 0) }

  predicate Yields(op: Op) { op.Yield? || Leaves(op) }

  ghost function Step(s: Sched, op: Op, idle: Task): Sched
    requires CanStep(s, op, idle)
  {
    if Yields(op) then Switched(Ready(s, op, idle)) else Ready(s, op, idle)
  }

  /** Between calls no terminated task is left. */
  ghost predicate Settled(s: Sched, idle: Task) { Inv(s, idle) && s.dead == [] }

  lemma SwitchedInv(s: Sched, idle: Task)
    requires Inv(s, idle)
    ensures Settled(Switched(s), idle)
  {
    hide Partition, PidsOk, TreeOk, SleepOk, Yielded;
    YieldedInv(s, idle);
  }

  lemma StepInv(s: Sched, op: Op, idle: Task)
    requires Settled(s, idle) && CanStep(s, op, idle)
    ensures Settled(Step(s, op, idle), idle)
  {
    hide Partition, PidsOk, TreeOk, SleepOk, Switched, Exiting, WokenUp, Tick, Forked, Waiting, Dozing;
    match op {
      case Yield => SwitchedInv(s, idle);
      case Exit => ExitingInv(s, idle); SwitchedInv(Exiting(s), idle);
      case Sleep(d) => WaitingInv(s, d, idle); SwitchedInv(Waiting(s, d), idle);
      case SleepTimer(n) =>
        if n > 0 {
          DozingInv(s, n, idle);
          SwitchedInv(Dozing(s, n), idle);
        }
      case Wakeup(d) => WokenUpInv(s, d, idle); WokenUpDead(s, d);
      case TimerTick => TickInv(s, idle); TickDead(s);
      case Fork(c, rem, ret) => ForkedInv(s, c, rem, ret, Success, idle); ForkedDead(s, c, rem, ret);
    }
  }

  lemma WokenUpDead(s: Sched, d: nat)
    ensures WokenUp(s, d).dead == s.dead
  {
  }

  lemma TickDead(s: Sched)
    ensures Tick(s).dead == s.dead
  {
  }

  lemma ForkedDead(s: Sched, c: Task, rem: nat, ret: nat)
    requires s.run != [] && Current(s) in s.pcb && |s.pids| == ULIMIT
    ensures Forked(s, c, rem, ret, Success).dead == s.dead
  {
  }

  ghost predicate Runs(s: Sched, ops: seq<Op>, idle: Task)
    decreases |ops|
  {
    ops == [] || (CanStep(s, ops[0], idle) && Runs(Step(s, ops[0], idle), ops[1..], idle))
  }

  ghost function Run(s: Sched, ops: seq<Op>, idle: Task): Sched
    requires Runs(s, ops, idle)
    decreases |ops|
  {
    if ops == [] then s else Run(Step(s, ops[0], idle), ops[1..], idle)
  }

  lemma {:induction false} RunInv(s: Sched, ops: seq<Op>, idle: Task)
    requires Settled(s, idle) && Runs(s, ops, idle)
    ensures Settled(Run(s, ops, idle), idle)
    decreases |ops|
  {
    hide Settled, CanStep, Step;
    if ops != [] {
      StepInv(s, ops[0], idle);
      RunInv(Step(s, ops[0], idle), ops[1..], idle);
    }
  }

  /** The state the boot code leaves for its first yield: the shell created and queued,
      then the daemon. The wait descriptors are what the new control blocks held. */
  function Booted(shell: Task, daemon: Task, limit: nat, d1: nat, d2: nat): Sched {
    Sched([daemon, shell], [], [], [],
          map[shell := Pcb(1, 0, [], d1, 0, 0), daemon := Pcb(2, 0, [], d2, 0, 0)],
          seq(ULIMIT, i => i == 1 || i == 2), 2, limit)
  }

  lemma BootedInv(shell: Task, daemon: Task, limit: nat, d1: nat, d2: nat)
    requires shell != daemon && shell != 0 && daemon != 0
    requires d1 != TIMER_ELAPSED && d2 != TIMER_ELAPSED
    ensures Settled(Booted(shell, daemon, limit, d1, d2), daemon)
  {
    hide PidsOk, TreeOk;
    BootedPids(shell, daemon, limit, d1, d2);
    BootedTree(shell, daemon, limit, d1, d2);
  }

  lemma BootedTree(shell: Task, daemon: Task, limit: nat, d1: nat, d2: nat)
    ensures TreeOk(Booted(shell, daemon, limit, d1, d2).pcb, [])
  {
  }

  lemma BootedPids(shell: Task, daemon: Task, limit: nat, d1: nat, d2: nat)
    requires shell != daemon
    ensures var s := Booted(shell, daemon, limit, d1, d2); PidsOk(s.pcb, s.pids)
  {
    var s := Booted(shell, daemon, limit, d1, d2);
    assert s.pcb[shell].pid == 1 && s.pcb[daemon].pid == 2;
    forall p | 1 <= p < ULIMIT && s.pids[p] ensures Taken(s.pcb, p) {
      assert shell in s.pcb && daemon in s.pcb;
    }
  }

  /** The daemon runs first; when it yields, the shell, and then the daemon again. */
  lemma BootTurns(shell: Task, daemon: Task, limit: nat, d1: nat, d2: nat)
    requires shell != daemon && shell != 0 && daemon != 0
    requires d1 != TIMER_ELAPSED && d2 != TIMER_ELAPSED
    ensures var s := Booted(shell, daemon, limit, d1, d2);
            && Runs(s, [Yield, Yield, Yield], daemon)
            && Current(Run(s, [Yield], daemon)) == daemon
            && Current(Run(s, [Yield, Yield], daemon)) == shell
            && Current(Run(s, [Yield, Yield, Yield], daemon)) == daemon
  {
    BootedInv(shell, daemon, limit, d1, d2);
  }

  /** In every reachable state each task is on exactly one ring and counted, the
      daemon is runnable, the PID table is that of the tasks and the process tree
      is in order. */
  lemma SchedulerSafety(shell: Task, daemon: Task, limit: nat, d1: nat, d2: nat, ops: seq<Op>)
    requires shell != daemon && shell != 0 && daemon != 0
    requires d1 != TIMER_ELAPSED && d2 != TIMER_ELAPSED
    requires Runs(Booted(shell, daemon, limit, d1, d2), ops, daemon)
    ensures Settled(Run(Booted(shell, daemon, limit, d1, d2), ops, daemon), daemon)
  {
    hide Settled, Booted;
    BootedInv(shell, daemon, limit, d1, d2);
    RunInv(Booted(shell, daemon, limit, d1, d2), ops, daemon);
  }

  /** Whatever the calls ask for, there is a current task to serve them. */
  lemma StepPossible(s: Sched, op: Op, idle: Task)
    requires Settled(s, idle)
    ensures s.run != [] && (Enabled(s, op, idle) ==> CanStep(s, op, idle))
  {
    hide NoDup, TreeOk, Enabled;
  }

  // ---------- timed sleep ----------

  ghost predicate Asleep(s: Sched, t: Task, n: nat) {
    t in s.timer && t in s.pcb && s.pcb[t].sleepRem == n
  }

  lemma SwitchedAsleep(s: Sched, idle: Task, t: Task, n: nat)
    requires Inv(s, idle) && Asleep(s, t, n)
    ensures Asleep(Switched(s), t, n)
  {
    hide NoDup, PidsOk, TreeOk;
  }

  lemma WokenUpAsleep(s: Sched, d: nat, t: Task, n: nat)
    requires Asleep(s, t, n) && NoDup(s.wait) && t !in s.wait
    ensures Asleep(WokenUp(s, d), t, n) && NoDup(WokenUp(s, d).wait) && t !in WokenUp(s, d).wait
  {
    hide NoDup;
    PickFacts(s.wait, s.pcb, d, true);
    PickFacts(s.wait, s.pcb, d, false);
  }

  lemma ExitingAsleep(s: Sched, t: Task, n: nat)
    requires s.run != [] && s.noproc > 0 && Current(s) in s.pcb
    requires Asleep(s, t, n) && NoDup(s.wait) && t !in s.wait
    ensures Asleep(Exiting(s), t, n)
  {
    hide NoDup, WokenUp;
    var e, c := Terminated(s), Current(s);
    var p := s.pcb[c].parent;
    WokenUpAsleep(e, s.pcb[c].pid, t, n);
    if p in s.pcb {
      WokenUpAsleep(WokenUp(e, s.pcb[c].pid), s.pcb[p].pid, t, n);
    }
  }

  lemma TickAsleep(s: Sched, idle: Task, t: Task, n: nat)
    requires Inv(s, idle) && Asleep(s, t, n)
    ensures n > 1 ==> Asleep(Tick(s), t, n - 1)
    ensures n == 1 ==> t in Tick(s).run && t !in Tick(s).timer
  {
    hide NoDup, PidsOk, TreeOk;
    PickFacts(s.timer, Ticked(s.pcb, s.timer), TIMER_ELAPSED, true);
    PickFacts(s.timer, Ticked(s.pcb, s.timer), TIMER_ELAPSED, false);
  }

  lemma StepAsleep(s: Sched, op: Op, idle: Task, t: Task, n: nat)
    requires Settled(s, idle) && CanStep(s, op, idle) && Asleep(s, t, n) && !op.TimerTick?
    ensures Asleep(Step(s, op, idle), t, n)
  {
    hide NoDup, PidsOk, TreeOk, SleepOk, Switched, Exiting, WokenUp, Enabled;
    match op {
      case Yield => SwitchedAsleep(s, idle, t, n);
      case Exit =>
        ExitStays(s, idle);
        ExitingAsleep(s, t, n);
        SwitchedAsleep(Exiting(s), idle, t, n);
      case Sleep(d) =>
        SleepStays(s, op, idle);
        SwitchedAsleep(Waiting(s, d), idle, t, n);
      case SleepTimer(k) =>
        if k > 0 {
          SleepStays(s, op, idle);
          SwitchedAsleep(Dozing(s, k), idle, t, n);
        }
      case Wakeup(d) => WokenUpAsleep(s, d, t, n);
      case Fork(c, rem, ret) => ForkedAsleep(s, op, idle, t, n);
    }
  }

  lemma ExitStays(s: Sched, idle: Task)
    requires Settled(s, idle) && CanStep(s, Exit, idle)
    ensures Inv(Exiting(s), idle)
  {
    hide Inv;
    ExitingInv(s, idle);
  }

  lemma SleepStays(s: Sched, op: Op, idle: Task)
    requires Settled(s, idle) && CanStep(s, op, idle) && Leaves(op) && !op.Exit?
    ensures Inv(Ready(s, op, idle), idle)
  {
    hide Inv, Waiting, Dozing;
    if op.Sleep? {
      WaitingInv(s, op.desc, idle);
    } else {
      DozingInv(s, op.interval, idle);
    }
  }

  lemma ForkedAsleep(s: Sched, op: Op, idle: Task, t: Task, n: nat)
    requires CanStep(s, op, idle) && op.Fork? && Asleep(s, t, n)
    ensures Asleep(Step(s, op, idle), t, n)
  {
    hide NextPid;
  }

  /** The timer ticks in a run. */
  function Ticks(ops: seq<Op>): nat {
    if ops == [] then 0 else (if ops[0].TimerTick? then 1 else 0) + Ticks(ops[1..])
  }

  /** A sleeper with `n` ticks to go still sleeps, with the rest to go, while fewer
      than `n` have passed. */
  lemma {:induction false} SleepsOn(s: Sched, ops: seq<Op>, idle: Task, t: Task, n: nat)
    requires Settled(s, idle) && Runs(s, ops, idle) && Asleep(s, t, n) && Ticks(ops) < n
    ensures Asleep(Run(s, ops, idle), t, n - Ticks(ops))
    decreases |ops|
  {
    hide Settled, CanStep, Step, Asleep;
    if ops != [] {
      StepInv(s, ops[0], idle);
      if ops[0].TimerTick? {
        TickStep(s, ops[0], idle, t, n);
        SleepsOn(Step(s, ops[0], idle), ops[1..], idle, t, n - 1);
      } else {
        StepAsleep(s, ops[0], idle, t, n);
        SleepsOn(Step(s, ops[0], idle), ops[1..], idle, t, n);
      }
    }
  }

  lemma TickStep(s: Sched, op: Op, idle: Task, t: Task, n: nat)
    requires Settled(s, idle) && CanStep(s, op, idle) && op.TimerTick? && Asleep(s, t, n)
    ensures n > 1 ==> Asleep(Step(s, op, idle), t, n - 1)
    ensures n == 1 ==> t in Step(s, op, idle).run && t !in Step(s, op, idle).timer
  {
    hide Inv, Asleep, Tick, Enabled;
    TickAsleep(s, idle, t, n);
  }

  /** sys_sleep_timer(n): after any run the sleeper still sleeps if it saw fewer than `n`
      ticks, and the `n`-th tick makes it runnable. */
  lemma SleepsExactly(s: Sched, n: int, ops: seq<Op>, idle: Task)
    requires Settled(s, idle) && n > 0 && CanStep(s, SleepTimer(n), idle)
    requires Runs(Step(s, SleepTimer(n), idle), ops, idle) && Ticks(ops) < n
    ensures var t, s' := Current(s), Run(Step(s, SleepTimer(n), idle), ops, idle);
            && t in s'.timer && t !in s'.run
            && (Ticks(ops) == n - 1 && CanStep(s', TimerTick, idle) ==> t in Step(s', TimerTick, idle).run)
  {
    hide CanStep, Step, NoDup, PidsOk, TreeOk, SleepOk;
    var t, s1 := Current(s), Step(s, SleepTimer(n), idle);
    StepInv(s, SleepTimer(n), idle);
    SleepTimerAsleep(s, n, idle);
    SleepsOn(s1, ops, idle, t, n);
    RunInv(s1, ops, idle);
    var s' := Run(s1, ops, idle);
    if Ticks(ops) == n - 1 && CanStep(s', TimerTick, idle) {
      TickStep(s', TimerTick, idle, t, 1);
    }
  }

  lemma SleepTimerAsleep(s: Sched, n: int, idle: Task)
    requires Settled(s, idle) && n > 0 && CanStep(s, SleepTimer(n), idle)
    ensures Asleep(Step(s, SleepTimer(n), idle), Current(s), n)
  {
    hide NoDup, PidsOk, TreeOk, SleepOk, Switched;
    SleepStays(s, SleepTimer(n), idle);
    SwitchedAsleep(Dozing(s, n), idle, Current(s), n);
  }

  // ---------- waiting ----------

  /** `t` sleeps until somebody wakes descriptor `d`. */
  ghost predicate WaitsFor(s: Sched, t: Task, d: nat) {
    t in s.wait && t in s.pcb && s.pcb[t].waitDesc == d
  }

  /** Somebody sleeps on descriptor `d`. */
  ghost predicate Awaited(s: Sched, d: nat) { exists t :: WaitsFor(s, t, d) }

  /** The call wakes descriptor `d`: it says so, or it is the exit of a task with a parent
      whose PID is `d`; or, if nobody waits for that, whose parent's PID is. */
  ghost predicate Wakes(s: Sched, op: Op, d: nat)
    requires s.run != [] && Current(s) in s.pcb
  {
    var c := s.pcb[Current(s)];
    || op == Wakeup(d)
    || (op.Exit? && c.parent in s.pcb && (d == c.pid || (d == s.pcb[c.parent].pid && !Awaited(s, c.pid))))
  }

  /** Exactly the sleepers on `d` leave the wait ring, for the run ring. */
  lemma WokenUpWaits(s: Sched, d: nat, t: Task, e: nat)
    requires NoDup(s.wait) && WaitsFor(s, t, e)
    ensures var w := WokenUp(s, d);
            if d == e then t in w.run && t !in w.wait && t in w.pcb && w.pcb[t].waitDesc == NOT_WAITING
            else WaitsFor(w, t, e)
  {
    hide NoDup;
    PickFacts(s.wait, s.pcb, d, true);
    PickFacts(s.wait, s.pcb, d, false);
  }

  /** Of two sleepers on `d` the one nearer the head of the wait ring, which is the one that
      went to sleep later, is the nearer to the head of the run ring. */
  lemma WokenUpOrder(s: Sched, d: nat, t: Task, u: Task)
    requires NoDup(s.wait) && WaitsFor(s, t, d) && WaitsFor(s, u, d) && Before(s.wait, t, u)
    ensures Before(WokenUp(s, d).run, t, u)
  {
    hide NoDup;
    PickFacts(s.wait, s.pcb, d, true);
    PickOrder(s.wait, s.pcb, d, true, t, u);
    var m := Pick(s.wait, s.pcb, d, true);
    var i, j :| 0 <= i < j < |m| && m[i] == t && m[j] == u;
    assert (m + s.run)[i] == t && (m + s.run)[j] == u;
  }

  lemma WokenUpOnce(s: Sched, d: nat)
    requires NoDup(s.wait)
    ensures NoDup(WokenUp(s, d).wait)
    ensures Pick(s.wait, s.pcb, d, true) == [] <==> !Awaited(s, d)
  {
    hide NoDup;
    PickFacts(s.wait, s.pcb, d, true);
    PickFacts(s.wait, s.pcb, d, false);
    if Pick(s.wait, s.pcb, d, true) != [] {
      var t := Pick(s.wait, s.pcb, d, true)[0];
      assert t in Pick(s.wait, s.pcb, d, true) && WaitsFor(s, t, d);
    }
  }

  /** `t` is on the run ring and waits for nothing. */
  ghost predicate Awake(s: Sched, t: Task) {
    t in s.run && t !in s.wait && t in s.pcb && s.pcb[t].waitDesc == NOT_WAITING
  }

  lemma ExitWaits(s: Sched, idle: Task, t: Task, d: nat)
    requires Settled(s, idle) && CanStep(s, Exit, idle) && WaitsFor(s, t, d)
    ensures if Wakes(s, Exit, d) then Awake(Exiting(s), t) else WaitsFor(Exiting(s), t, d)
  {
    hide NoDup, WokenUp, Pick, PidsOk, TreeOk, SleepOk, Bereft;
    var e, c := Terminated(s), Current(s);
    var p := s.pcb[c].parent;
    assert WaitsFor(e, t, d);
    assert forall u, f :: WaitsFor(e, u, f) <==> WaitsFor(s, u, f);
    if p in s.pcb {
      NoSelfParent(s, idle, c);
      var mine, other := s.pcb[c].pid, s.pcb[p].pid;
      WokenUpWaits(e, mine, t, d);
      WokenUpOnce(e, mine);
      var w := WokenUp(e, mine);
      if !Awaited(s, mine) {
        assert d != mine;
        WokenUpWaits(w, other, t, d);
      }
      WokenByExitFrame(e, c);
      BereftWaits(WokenByExit(e, c).pcb, c, t);
    } else {
      BereftWaits(e.pcb, c, t);
    }
  }

  lemma BereftWaits(pcb: Pcbs, c: Task, t: Task)
    requires c in pcb && t in pcb
    ensures t in Bereft(pcb, c) && Bereft(pcb, c)[t].waitDesc == pcb[t].waitDesc
  {
  }

  lemma SwitchedWaits(s: Sched, idle: Task, t: Task, d: nat)
    requires Inv(s, idle)
    ensures WaitsFor(s, t, d) ==> WaitsFor(Switched(s), t, d)
    ensures Awake(s, t) ==> Awake(Switched(s), t)
  {
    hide NoDup, PidsOk, TreeOk;
    RotateFacts(s.run);
  }

  lemma TickWaits(s: Sched, idle: Task, t: Task, d: nat)
    requires Inv(s, idle) && WaitsFor(s, t, d)
    ensures WaitsFor(Tick(s), t, d)
  {
    hide NoDup, PidsOk, TreeOk;
    PickFacts(s.timer, Ticked(s.pcb, s.timer), TIMER_ELAPSED, true);
    PickFacts(s.timer, Ticked(s.pcb, s.timer), TIMER_ELAPSED, false);
  }

  /** A sleeper on `d` is woken by the calls that wake `d`, and stays asleep on it over all
      others. */
  lemma StepWaits(s: Sched, op: Op, idle: Task, t: Task, d: nat)
    requires Settled(s, idle) && CanStep(s, op, idle) && WaitsFor(s, t, d)
    ensures if Wakes(s, op, d) then Awake(Step(s, op, idle), t) else WaitsFor(Step(s, op, idle), t, d)
  {
    hide NoDup, PidsOk, TreeOk, SleepOk, Switched, Exiting, WokenUp, Enabled, Tick;
    match op {
      case Yield => SwitchedWaits(s, idle, t, d);
      case Exit =>
        ExitStays(s, idle);
        ExitWaits(s, idle, t, d);
        SwitchedWaits(Exiting(s), idle, t, d);
      case Sleep(e) =>
        SleepStays(s, op, idle);
        SwitchedWaits(Waiting(s, e), idle, t, d);
      case SleepTimer(k) =>
        if k > 0 {
          SleepStays(s, op, idle);
          SwitchedWaits(Dozing(s, k), idle, t, d);
        }
      case Wakeup(e) => WokenUpWaits(s, e, t, d);
      case TimerTick => TickWaits(s, idle, t, d);
      case Fork(c, rem, ret) => ForkedWaits(s, op, idle, t, d);
    }
  }

  lemma ForkedWaits(s: Sched, op: Op, idle: Task, t: Task, d: nat)
    requires CanStep(s, op, idle) && op.Fork? && WaitsFor(s, t, d)
    ensures WaitsFor(Step(s, op, idle), t, d)
  {
    hide NextPid;
  }

  /** No call of the run wakes descriptor `d`. */
  ghost predicate Quiet(s: Sched, ops: seq<Op>, idle: Task, d: nat)
    requires Runs(s, ops, idle)
    decreases |ops|
  {
    ops != [] ==> !Wakes(s, ops[0], d) && Quiet(Step(s, ops[0], idle), ops[1..], idle, d)
  }

  lemma {:induction false} WaitsOnQuietly(s: Sched, ops: seq<Op>, idle: Task, t: Task, d: nat)
    requires Settled(s, idle) && Runs(s, ops, idle) && WaitsFor(s, t, d) && Quiet(s, ops, idle, d)
    ensures WaitsFor(Run(s, ops, idle), t, d)
    decreases |ops|
  {
    hide Settled, CanStep, Step, WaitsFor, Wakes;
    if ops != [] {
      StepInv(s, ops[0], idle);
      CurrentThere(s, ops[0], idle);
      StepWaits(s, ops[0], idle, t, d);
      WaitsOnQuietly(Step(s, ops[0], idle), ops[1..], idle, t, d);
    }
  }

  lemma CurrentThere(s: Sched, op: Op, idle: Task)
    requires CanStep(s, op, idle)
    ensures s.run != [] && Current(s) in s.pcb
  {
  }

  /** sys_sleep(d): over any run in which nobody wakes `d` the sleeper stays on the wait
      ring; the next call puts it on the run ring if that wakes `d`, and otherwise not. */
  lemma SleepsUntilWoken(s: Sched, d: nat, ops: seq<Op>, op: Op, idle: Task)
    requires Settled(s, idle) && CanStep(s, Sleep(d), idle)
    requires var s1 := Step(s, Sleep(d), idle); Runs(s1, ops, idle) && Quiet(s1, ops, idle, d)
    requires CanStep(Run(Step(s, Sleep(d), idle), ops, idle), op, idle)
    ensures var t, s' := Current(s), Run(Step(s, Sleep(d), idle), ops, idle);
            && t in s'.wait && t !in s'.run
            && (t in Step(s', op, idle).run <==> Wakes(s', op, d))
  {
    hide CanStep, Step, PidsOk, TreeOk, SleepOk, NoDup, Wakes;
    var t, s1 := Current(s), Step(s, Sleep(d), idle);
    StepInv(s, Sleep(d), idle);
    SleepWaits(s, d, idle);
    WaitsOnQuietly(s1, ops, idle, t, d);
    RunInv(s1, ops, idle);
    var s' := Run(s1, ops, idle);
    CurrentThere(s', op, idle);
    StepInv(s', op, idle);
    StepWaits(s', op, idle, t, d);
  }

  lemma SleepWaits(s: Sched, d: nat, idle: Task)
    requires Settled(s, idle) && CanStep(s, Sleep(d), idle)
    ensures WaitsFor(Step(s, Sleep(d), idle), Current(s), d)
  {
    hide NoDup, PidsOk, TreeOk, SleepOk, Switched;
    SleepStays(s, Sleep(d), idle);
    SwitchedWaits(Waiting(s, d), idle, Current(s), d);
  }

  lemma ExitTree(s: Sched, c: Task)
    requires c in s.pcb
    ensures SameTree(s.pcb, WokenByExit(s, c).pcb) && WokenByExit(s, c).dead == s.dead
  {
  }

  lemma SwitchedReturn(s: Sched, idle: Task, p: Task)
    requires Inv(s, idle) && p in s.pcb && p !in s.dead
    ensures p in Switched(s).pcb && Switched(s).pcb[p] == s.pcb[p]
    ensures forall d :: d in s.dead ==> d !in Switched(s).pcb
  {
    hide NoDup, PidsOk, TreeOk, SleepOk;
  }

  // ---------- the process tree ----------

  /** What becomes of task `t`, which stays: its PID is its own; it loses its parent with
      the parent's exit; it learns the PID of a child that exits and lists it no more; and
      it lists the child it forks. */
  ghost predicate FamilyAfter(s: Sched, op: Op, t: Task, p: Pcb)
    requires s.run != [] && Current(s) in s.pcb && t in s.pcb
  {
    var c, was := Current(s), s.pcb[t];
    && p.pid == was.pid && p.parent == (if op.Exit? && was.parent == c then 0 else was.parent)
    && p.wakeupReturn == (if op.Exit? && s.pcb[c].parent == t then s.pcb[c].pid else was.wakeupReturn)
    && forall u :: u in p.children <==>
         (u in was.children && !(op.Exit? && u == c)) || (op.Fork? && t == c && u == op.child)
  }

  lemma BereftFamily(pcb: Pcbs, c: Task, t: Task)
    requires TreeOk(pcb, []) && 0 !in pcb && c in pcb && t in pcb && t != c && pcb[c].parent != c
    ensures var b := Bereft(pcb, c);
            t in b && b[t].wakeupReturn == if pcb[c].parent == t then pcb[c].pid else pcb[t].wakeupReturn
  {
  }

  lemma ExitFamily(s: Sched, idle: Task, t: Task)
    requires Settled(s, idle) && CanStep(s, Exit, idle) && t in s.pcb && t != Current(s)
    ensures t in Exiting(s).pcb && FamilyAfter(s, Exit, t, Exiting(s).pcb[t]) && Exiting(s).dead == [Current(s)]
  {
    hide PidsOk, SleepOk, Enabled, NoDup, Partition, TreeOk, WokenByExit, Bereft;
    var c, e := Current(s), Terminated(s);
    var w := WokenByExit(e, c);
    ExitTree(e, c);
    ExitSameReturn(e, c);
    NoSelfParent(s, idle, c);
    SameTreeKeeps(s.pcb, w.pcb, s.pids, []);
    BereftFamily(w.pcb, c, t);
    BereftKeys(w.pcb, c);
    BereftAt(w.pcb, c, t);
  }

  lemma ExitSameReturn(s: Sched, c: Task)
    requires c in s.pcb
    ensures forall t :: t in s.pcb ==>
      t in WokenByExit(s, c).pcb && WokenByExit(s, c).pcb[t].wakeupReturn == s.pcb[t].wakeupReturn
  {
  }

  lemma NoSelfParent(s: Sched, idle: Task, c: Task)
    requires Settled(s, idle) && c in s.pcb
    ensures s.pcb[c].parent != c && 0 !in s.pcb && TreeOk(s.pcb, [])
  {
    hide NoDup, PidsOk, SleepOk;
    assert Alive(s.pcb, s.dead, c);
  }

  lemma QuietFamily(s: Sched, op: Op, idle: Task, t: Task)
    requires CanStep(s, op, idle) && !op.Exit? && !op.Fork? && t in s.pcb
    ensures t in Ready(s, op, idle).pcb && FamilyAfter(s, op, t, Ready(s, op, idle).pcb[t])
  {
    hide Enabled, Pick;
  }

  /** What every call does to the process tree, and to what waits will return. */
  lemma StepFamily(s: Sched, op: Op, idle: Task, t: Task)
    requires Settled(s, idle) && CanStep(s, op, idle) && t in s.pcb && !(op.Exit? && t == Current(s))
    ensures t in Step(s, op, idle).pcb && FamilyAfter(s, op, t, Step(s, op, idle).pcb[t])
  {
    hide Inv, Switched, Exiting, Enabled, Forked, Waiting, Dozing, WokenUp, Tick, FamilyAfter;
    if op.Fork? {
      ForkedFamily(s, op, idle, t);
    } else if op.Exit? {
      ExitStays(s, idle);
      ExitFamily(s, idle, t);
      SwitchedReturn(Exiting(s), idle, t);
    } else {
      QuietFamily(s, op, idle, t);
      if Leaves(op) {
        SleepStays(s, op, idle);
      }
      if Yields(op) {
        NobodyDead(s, op, idle);
        SwitchedReturn(Ready(s, op, idle), idle, t);
      }
    }
  }

  lemma NobodyDead(s: Sched, op: Op, idle: Task)
    requires CanStep(s, op, idle) && !op.Exit?
    ensures Ready(s, op, idle).dead == s.dead
  {
  }

  lemma ForkedFamily(s: Sched, op: Op, idle: Task, t: Task)
    requires CanStep(s, op, idle) && op.Fork? && t in s.pcb
    ensures t in Step(s, op, idle).pcb && FamilyAfter(s, op, t, Step(s, op, idle).pcb[t])
  {
    hide Forked, CanFork;
    ForkedChild(s, op.child, op.rem, op.ret, t);
  }

  /** The exit of a task with a parent: whoever waits for it is runnable, the parent will
      return its PID from the wait, and it is no child of the parent's any more. */
  lemma ExitReported(s: Sched, idle: Task, t: Task)
    requires Settled(s, idle) && CanStep(s, Exit, idle) && s.pcb[Current(s)].parent in s.pcb
    ensures var c, s' := Current(s), Step(s, Exit, idle);
            var p := s.pcb[c].parent;
            && p in s'.pcb && s'.pcb[p].wakeupReturn == s.pcb[c].pid && c !in s'.pcb[p].children && c !in s'.pcb
            && (WaitsFor(s, t, s.pcb[c].pid) ==> Awake(s', t))
  {
    hide NoDup, PidsOk, SleepOk, Switched, WokenUp, Enabled, Exiting;
    if WaitsFor(s, t, s.pcb[Current(s)].pid) {
      StepWaits(s, Exit, idle, t, s.pcb[Current(s)].pid);
    }
    ExitStays(s, idle);
    NoSelfParent(s, idle, Current(s));
    ExitFamily(s, idle, s.pcb[Current(s)].parent);
    SwitchedReturn(Exiting(s), idle, s.pcb[Current(s)].parent);
  }

  // ---------- round robin ----------

  /** How many tasks the call puts at the head of the run ring. */
  ghost function Inserted(s: Sched, op: Op, idle: Task): int
    requires CanStep(s, op, idle)
  {
    |Ready(s, op, idle).run| + (if Leaves(op) then 1 else 0) - |s.run|
  }

  /** `long` is `short` with `k` more in front. */
  ghost predicate Ahead(long: seq<Task>, short: seq<Task>, k: int) {
    0 <= k == |long| - |short| && long[k..] == short
  }

  lemma WokenUpAhead(s: Sched, d: nat)
    ensures Ahead(WokenUp(s, d).run, s.run, |WokenUp(s, d).run| - |s.run|)
  {
  }

  lemma AheadTwice(a: seq<Task>, b: seq<Task>, c: seq<Task>, j: int, k: int)
    requires Ahead(a, b, j) && Ahead(b, c, k)
    ensures Ahead(a, c, j + k)
  {
    assert a[j + k..] == a[j..][k..];
  }

  lemma ExitingAhead(s: Sched)
    requires s.run != [] && s.noproc > 0 && Current(s) in s.pcb
    ensures Ahead(Exiting(s).run, Init(s.run), |Exiting(s).run| - |s.run| + 1)
  {
    hide WokenUp, Pick;
    var e, c := Terminated(s), Current(s);
    var p := s.pcb[c].parent;
    var w := WokenUp(e, s.pcb[c].pid);
    WokenUpAhead(e, s.pcb[c].pid);
    if p in s.pcb {
      WokenUpAhead(w, s.pcb[p].pid);
      AheadTwice(WokenUp(w, s.pcb[p].pid).run, w.run, e.run, |WokenUp(w, s.pcb[p].pid).run| - |w.run|, |w.run| - |e.run|);
    }
  }

  lemma ReadyAhead(s: Sched, op: Op, idle: Task)
    requires CanStep(s, op, idle)
    ensures Ahead(Ready(s, op, idle).run, if Leaves(op) then Init(s.run) else s.run, Inserted(s, op, idle))
  {
    hide WokenUp, Exiting, Enabled, Pick, NextPid;
    match op {
      case Exit => ExitingAhead(s);
      case Wakeup(d) => WokenUpAhead(s, d);
      case Yield =>
      case Sleep(d) =>
      case SleepTimer(n) =>
      case TimerTick =>
      case Fork(c, rem, ret) =>
    }
  }

  /** One call moves a task that is not current back by the insertions and forward by
      its yield; at the head of the ring, the yield makes it current. */
  lemma StepMoves(s: Sched, op: Op, idle: Task, i: nat)
    requires CanStep(s, op, idle) && i < |s.run| - 1
    ensures var t, s', k := s.run[i], Step(s, op, idle), i + Inserted(s, op, idle);
            && k >= i && s'.run != []
            && (!Yields(op) ==> k < |s'.run| - 1 && s'.run[k] == t)
            && (Yields(op) && k > 0 ==> k - 1 < |s'.run| - 1 && s'.run[k-1] == t)
            && (Yields(op) && k == 0 ==> Current(s') == t)
  {
    hide Ready, Cleaned;
    ReadyAhead(s, op, idle);
    var r, k := Ready(s, op, idle), i + Inserted(s, op, idle);
    var b := if Leaves(op) then Init(s.run) else s.run;
    assert i < |b| && b[i] == s.run[i];
    assert r.run[k] == r.run[Inserted(s, op, idle)..][i];
    CleanedRun(r);
    CleanedRun(r.(run := Rotate(r.run)));
  }

  lemma CleanedRun(s: Sched)
    ensures Cleaned(s).run == s.run
  {
  }

  function YieldCount(ops: seq<Op>): nat {
    if ops == [] then 0 else (if Yields(ops[0]) then 1 else 0) + YieldCount(ops[1..])
  }

  ghost function InsertCount(s: Sched, ops: seq<Op>, idle: Task): int
    requires Runs(s, ops, idle)
    decreases |ops|
  {
    if ops == [] then 0
    else Inserted(s, ops[0], idle) + InsertCount(Step(s, ops[0], idle), ops[1..], idle)
  }

  /** Task `t` is current in no state of the run. */
  ghost predicate Waits(s: Sched, ops: seq<Op>, idle: Task, t: Task)
    requires Runs(s, ops, idle)
    decreases |ops|
  {
    && s.run != [] && Current(s) != t
    && (ops != [] ==> Waits(Step(s, ops[0], idle), ops[1..], idle, t))
  }

  /** As long as it has not had its turn, a task stands at its first position plus the
      insertions less the yields. */
  lemma {:induction false} Position(s: Sched, ops: seq<Op>, idle: Task, i: nat)
    requires Runs(s, ops, idle) && i < |s.run| - 1 && Waits(s, ops, idle, s.run[i])
    ensures var k, s' := i + InsertCount(s, ops, idle) - YieldCount(ops), Run(s, ops, idle);
            0 <= k < |s'.run| - 1 && s'.run[k] == s.run[i]
    decreases |ops|
  {
    hide CanStep, Step, Inserted, Yields;
    if ops != [] {
      StepMoves(s, ops[0], idle, i);
      var k := i + Inserted(s, ops[0], idle) - (if Yields(ops[0]) then 1 else 0);
      WaitsOn(s, ops, idle, s.run[i]);
      Position(Step(s, ops[0], idle), ops[1..], idle, k);
    }
  }

  lemma WaitsOn(s: Sched, ops: seq<Op>, idle: Task, t: Task)
    requires Runs(s, ops, idle) && ops != [] && Waits(s, ops, idle, t)
    ensures var s1 := Step(s, ops[0], idle);
            s1.run != [] && Current(s1) != t && Waits(s1, ops[1..], idle, t)
  {
    hide Step, CanStep;
  }

  /** Round robin: a task at position `i` that has not had its turn becomes current
      with yield number `i` + 1 + `k`, `k` tasks having been put at the head of the
      run ring before, and with no other. */
  lemma TurnComes(s: Sched, ops: seq<Op>, op: Op, idle: Task, i: nat)
    requires Settled(s, idle) && Runs(s, ops, idle) && i < |s.run| - 1 && Waits(s, ops, idle, s.run[i])
    requires CanStep(Run(s, ops, idle), op, idle)
    ensures var s' := Run(s, ops, idle);
            var k := InsertCount(s, ops, idle) + Inserted(s', op, idle);
            && Step(s', op, idle).run != []
            && (Current(Step(s', op, idle)) == s.run[i] <==> Yields(op) && YieldCount(ops) + 1 == i + 1 + k)
  {
    hide Step, Inserted, Yields, CanStep, PidsOk, TreeOk, SleepOk;
    var s', t := Run(s, ops, idle), s.run[i];
    RunInv(s, ops, idle);
    StepInv(s', op, idle);
    Position(s, ops, idle, i);
    var p := i + InsertCount(s, ops, idle) - YieldCount(ops);
    StepMoves(s', op, idle, p);
  }
}
