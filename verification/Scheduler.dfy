/** The scheduler's globals and the calls that change them in place, each shown to do
    what Tasks says it does. */
module Scheduler {
  import opened Tasks
  import opened SchedRuns

  /** The tasks of `q` not among `ts`. */
  function Except(q: seq<Task>, ts: seq<Task>): seq<Task> {
    if q == [] then [] else if q[0] in ts then Except(q[1..], ts) else [q[0]] + Except(q[1..], ts)
  }

  lemma {:induction false} ExceptNone(q: seq<Task>)
    ensures Except(q, []) == q
  {
    if q != [] {
      ExceptNone(q[1..]);
    }
  }

  lemma {:induction false} ExceptAbsent(q: seq<Task>, ts: seq<Task>, x: Task)
    requires x !in q
    ensures Except(q, [x] + ts) == Except(q, ts)
  {
    if q != [] {
      ExceptAbsent(q[1..], ts, x);
    }
  }

  lemma {:induction false} ExceptOneMore(q: seq<Task>, ts: seq<Task>, x: Task)
    requires NoDup(q) && x !in ts
    ensures Except(q, [x] + ts) == Remove(Except(q, ts), x)
  {
    if q != [] {
      if q[0] == x {
        ExceptAbsent(q[1..], ts, x);
        assert Except(q, ts) == [x] + Except(q[1..], ts);
        assert ([x] + Except(q[1..], ts))[1..] == Except(q[1..], ts);
      } else {
        ExceptOneMore(q[1..], ts, x);
        if q[0] !in ts {
          assert ([q[0]] + Except(q[1..], ts))[1..] == Except(q[1..], ts);
        }
      }
    }
  }

  lemma {:induction false} ExceptMatching(q: seq<Task>, ts: seq<Task>, pcb: Pcbs, d: nat)
    requires forall t :: t in q ==> (t in ts <==> t in pcb && pcb[t].waitDesc == d)
    ensures Except(q, ts) == Pick(q, pcb, d, false)
  {
    if q != [] {
      ExceptMatching(q[1..], ts, pcb, d);
    }
  }

  lemma WokenNone(pcb: Pcbs)
    ensures Woken(pcb, []) == pcb
  {
  }

  lemma NotLater(m: seq<Task>, i: nat)
    requires NoDup(m) && i < |m|
    ensures m[i] in m && m[i] !in m[i+1..]
  {
  }

  lemma WokenMore(pcb: Pcbs, ts: seq<Task>, x: Task)
    requires x in pcb
    ensures x in Woken(pcb, ts)
    ensures var w := Woken(pcb, ts);
            Woken(pcb, [x] + ts) == w[x := w[x].(waitDesc := NOT_WAITING)]
  {
  }

  lemma TickedMore(pcb: Pcbs, timer: seq<Task>, k: nat)
    requires NoDup(timer) && k < |timer| && timer[k] in pcb
    ensures timer[k] in Ticked(pcb, timer[..k])
    ensures var w, t := Ticked(pcb, timer[..k]), timer[k];
            w[t] == pcb[t] && Ticked(pcb, timer[..k+1]) == w[t := TickedPcb(w[t])]
  {
    assert timer[..k+1] == timer[..k] + [timer[k]];
  }

  lemma RingFacts(s: Sched, idle: Task)
    requires Inv(s, idle)
    ensures NoDup(s.wait) && NoDup(s.timer)
    ensures (forall t :: t in s.wait ==> t in s.pcb) && (forall t :: t in s.timer ==> t in s.pcb)
  {
    hide NoDup, PidsOk, TreeOk;
  }

  lemma DeadPid(s: Sched, idle: Task)
    requires Inv(s, idle)
    ensures s.run != [] && (s.dead != [] ==> s.dead[0] in s.pcb && s.pcb[s.dead[0]].pid < |s.pids|)
  {
  }

  lemma NoneWoken(s: Sched, d: nat)
    requires Pick(s.wait, s.pcb, d, true) == []
    ensures WokenUp(s, d) == s
  {
    PickNone(s.wait, s.pcb, d);
    WokenNone(s.pcb);
  }

  lemma {:induction false} PickNone(q: seq<Task>, pcb: Pcbs, d: nat)
    requires Pick(q, pcb, d, true) == []
    ensures Pick(q, pcb, d, false) == q
  {
    if q != [] {
      PickNone(q[1..], pcb, d);
    }
  }

  lemma {:induction false} RemoveKeeps(s: seq<Task>, x: Task)
    ensures forall t :: t in Remove(s, x) ==> t in s
  {
    if s != [] {
      RemoveKeeps(s[1..], x);
    }
  }

  lemma WokenTree(s: Sched, c: Task)
    requires c in s.pcb
    ensures var w := WokenByExit(s, c);
            && c in w.pcb && w.pcb[c].parent == s.pcb[c].parent && w.pcb[c].children == s.pcb[c].children
            && (forall t :: t in s.pcb <==> t in w.pcb)
  {
    hide Pick;
  }

  lemma BootPids(f: seq<bool>)
    requires |f| == ULIMIT && forall i :: 0 <= i < ULIMIT ==> !f[i]
    ensures NextPid(f, 1) == 1 && NextPid(TakePid(f), 1) == 2
    ensures TakePid(TakePid(f)) == seq(ULIMIT, i => i == 1 || i == 2)
  {
  }

  lemma ExitFacts(s: Sched, idle: Task)
    requires Settled(s, idle)
    ensures var c := Current(s);
            && c in s.pcb && (s.pcb[c].parent == 0 || s.pcb[c].parent in s.pcb)
            && (forall t :: t in s.pcb[c].children ==> t in s.pcb)
            && NoDup(s.wait) && (forall t :: t in s.wait ==> t in s.pcb) && 0 !in s.pcb
  {
    hide NoDup, PidsOk;
    var c := Current(s);
    assert Alive(s.pcb, s.dead, c);
    assert s.pcb[c].parent != 0 ==> Alive(s.pcb, s.dead, s.pcb[c].parent);
  }

  ghost predicate Forkable(s: Sched) {
    s.run != [] && Current(s) in s.pcb && |s.pids| == ULIMIT
  }

  class Scheduler {
    var run: seq<Task>
    var wait: seq<Task>
    var timer: seq<Task>
    var dead: seq<Task>
    var pcb: Pcbs
    const pids: array<bool>
    var noproc: nat
    var limit: nat

    /** The boot code up to its first yield: the shell is created and queued, then the
        daemon; the wait descriptors are whatever the new control blocks hold. */
    constructor (shell: Task, daemon: Task, d1: nat, d2: nat)
      requires shell != daemon && shell != 0 && daemon != 0
      requires d1 != TIMER_ELAPSED && d2 != TIMER_ELAPSED
      ensures fresh(pids) && View() == Booted(shell, daemon, NPROC_MAX, d1, d2) && Settled(View(), daemon)
    {
      run, wait, timer, dead, pcb, noproc, limit := [], [], [], [], map[], 0, NPROC_MAX;
      pids := new bool[ULIMIT](i => false);
      new;
      hide Settled, NextPid, TakePid;
      BootPids(pids[..]);
      var p := GetNextPid();
      pcb := pcb[shell := Pcb(p, 0, [], d1, 0, 0)];
      var r := AddToTaskList(shell);
      p := GetNextPid();
      pcb := pcb[daemon := Pcb(p, 0, [], d2, 0, 0)];
      r := AddToTaskList(daemon);
      BootedInv(shell, daemon, NPROC_MAX, d1, d2);
      assert View().pcb == Booted(shell, daemon, NPROC_MAX, d1, d2).pcb;
    }

    ghost function View(): Sched
      reads this, pids
    {
      Sched(run, wait, timer, dead, pcb, pids[..], noproc, limit)
    }

    /** The least free PID, marked as taken; -1 if there is none. */
    method GetNextPid() returns (p: nat)
      requires pids.Length == ULIMIT
      modifies pids
      ensures p == NextPid(old(pids[..]), 1) && pids[..] == TakePid(old(pids[..]))
    {
      var i := 1;
      while i < ULIMIT
        invariant 1 <= i <= ULIMIT && pids[..] == old(pids[..])
        invariant NextPid(pids[..], 1) == NextPid(pids[..], i)
      {
        if !pids[i] {
          pids[i] := true;
          return i;
        }
        i := i + 1;
      }
      return NO_PID;
    }

    method CleanupTerminated()
      requires dead != [] ==> dead[0] in pcb && pcb[dead[0]].pid < pids.Length
      modifies this, pids
      ensures View() == Cleaned(old(View()))
    {
      if dead != [] {
        var t := dead[0];
        dead := dead[1..];
        pids[pcb[t].pid] := false;
        pcb := pcb - {t};
      }
    }

    /** The head of the run ring becomes current, and one terminated task goes. */
    method SysYield()
      requires run != [] && (dead != [] ==> dead[0] in pcb && pcb[dead[0]].pid < pids.Length)
      modifies this, pids
      ensures View() == Yielded(old(View()))
    {
      var next := run[0];
      run := run[1..];
      run := run + [next];
      CleanupTerminated();
    }

    /** The sleepers of ring `q` on `d`, in order. */
    method Collect(q: seq<Task>, d: nat) returns (temp: array<Task>, i: nat)
      requires (forall t :: t in q ==> t in pcb) && |Pick(q, pcb, d, true)| <= MAX_WAIT_PROC
      ensures fresh(temp) && i <= temp.Length && temp[..i] == Pick(q, pcb, d, true)
    {
      temp := new Task[MAX_WAIT_PROC];
      i := 0;
      var k := 0;
      while k < |q|
        invariant 0 <= k <= |q| && 0 <= i <= MAX_WAIT_PROC
        invariant temp[..i] + Pick(q[k..], pcb, d, true) == Pick(q, pcb, d, true)
      {
        assert q[k..][0] == q[k] && q[k..][1..] == q[k+1..];
        if pcb[q[k]].waitDesc == d {
          ghost var done := temp[..i];
          assert |done + Pick(q[k..], pcb, d, true)| <= MAX_WAIT_PROC;
          temp[i] := q[k];
          i := i + 1;
          assert temp[..i] == done + [q[k]];
        }
        k := k + 1;
      }
    }

    /** _sys_wakeup on ring `q`: what is left of the ring, and how many were woken. */
    method WakeRing(q: seq<Task>, d: nat) returns (rest: seq<Task>, c: nat)
      requires NoDup(q) && (forall t :: t in q ==> t in pcb)
      requires |Pick(q, pcb, d, true)| <= MAX_WAIT_PROC
      modifies `run, `pcb
      ensures run == Pick(q, old(pcb), d, true) + old(run) && rest == Pick(q, old(pcb), d, false)
      ensures pcb == Woken(old(pcb), Pick(q, old(pcb), d, true)) && c == |Pick(q, old(pcb), d, true)|
    {
      hide Pick, Except, Remove, Woken, NoDup;
      ghost var m, p0 := Pick(q, pcb, d, true), pcb;
      PickFacts(q, pcb, d, true);
      var temp, i := Collect(q, d);
      c, rest := i, q;
      ExceptNone(q);
      WokenNone(pcb);
      assert m[c..] == [];
      while i != 0
        invariant 0 <= i <= c && temp[..c] == m
        invariant run == m[i..] + old(run) && rest == Except(q, m[i..])
        invariant pcb == Woken(p0, m[i..])
      {
        i := i - 1;
        var proc := temp[i];
        assert proc == m[i] && m[i..] == [proc] + m[i+1..];
        NotLater(m, i);
        WokenMore(p0, m[i+1..], proc);
        ExceptOneMore(q, m[i+1..], proc);
        pcb := pcb[proc := pcb[proc].(waitDesc := NOT_WAITING)];
        rest := Remove(rest, proc);
        run := [proc] + run;
      }
      assert m[0..] == m;
      ExceptMatching(q, m, p0, d);
    }

    /** Wakes those waiting for `d`; the count tells how many. */
    method SysWakeup(d: nat) returns (c: nat)
      requires NoDup(wait) && (forall t :: t in wait ==> t in pcb)
      requires |Pick(wait, pcb, d, true)| <= MAX_WAIT_PROC
      modifies this
      ensures View() == WokenUp(old(View()), d) && c == |Pick(old(wait), old(pcb), d, true)|
    {
      hide Pick;
      var rest;
      rest, c := WakeRing(wait, d);
      wait := rest;
    }

    /** One tick: every timed sleeper has one less to go, and those with none left run. */
    method SysWakeupTimer(ghost idle: Task)
      requires Settled(View(), idle) && CanStep(View(), TimerTick, idle)
      modifies this
      ensures Settled(View(), idle) && View() == Step(old(View()), TimerTick, idle)
    {
      hide Inv, Pick;
      StepInv(View(), TimerTick, idle);
      RingFacts(View(), idle);
      TickTimers();
      var c;
      timer, c := WakeRing(timer, TIMER_ELAPSED);
    }

    method TickTimers()
      requires NoDup(timer) && (forall t :: t in timer ==> t in pcb)
      modifies `pcb
      ensures pcb == Ticked(old(pcb), timer)
    {
      var k := 0;
      assert Ticked(pcb, []) == pcb;
      while k < |timer|
        invariant 0 <= k <= |timer| && pcb == Ticked(old(pcb), timer[..k])
      {
        var t := timer[k];
        TickedMore(old(pcb), timer, k);
        pcb := pcb[t := pcb[t].(sleepRem := Dec(pcb[t].sleepRem))];
        if pcb[t].sleepRem == 0 {
          pcb := pcb[t := pcb[t].(waitDesc := TIMER_ELAPSED)];
        }
        k := k + 1;
      }
      assert timer[..|timer|] == timer;
    }

    /** The current task waits for `d` and another becomes current. */
    method SysSleep(d: nat, ghost idle: Task)
      requires Settled(View(), idle) && CanStep(View(), Sleep(d), idle)
      modifies this, pids
      ensures Settled(View(), idle) && View() == Step(old(View()), Sleep(d), idle)
    {
      hide Inv, Yielded;
      ghost var s := View();
      StepInv(s, Sleep(d), idle);
      SleepStays(s, Sleep(d), idle);
      DeadPid(Waiting(s, d), idle);
      var c := run[|run|-1];
      pcb := pcb[c := pcb[c].(waitDesc := d)];
      run := run[..|run|-1];
      wait := [c] + wait;
      SysYield();
    }

    /** The current task sleeps for `n` ticks, unless there are none to sleep. */
    method SysSleepTimer(n: int, ghost idle: Task) returns (r: int)
      requires Settled(View(), idle) && CanStep(View(), SleepTimer(n), idle)
      modifies this, pids
      ensures Settled(View(), idle) && View() == Step(old(View()), SleepTimer(n), idle)
      ensures r == if n <= 0 then -1 else 0
    {
      hide Inv, Yielded;
      ghost var s := View();
      StepInv(s, SleepTimer(n), idle);
      if n <= 0 {
        return -1;
      }
      SleepStays(s, SleepTimer(n), idle);
      DeadPid(Dozing(s, n), idle);
      var c := run[|run|-1];
      pcb := pcb[c := pcb[c].(sleepRem := n)];
      run := run[..|run|-1];
      timer := [c] + timer;
      SysYield();
      return 0;
    }

    method RemoveParentInfoFromChildren(c: Task)
      requires c in pcb && (forall t :: t in pcb[c].children ==> t in pcb)
      modifies `pcb
      ensures pcb == Orphaned(old(pcb), old(pcb)[c].children)
    {
      ghost var p0 := pcb;
      var ts := pcb[c].children;
      var k := 0;
      assert Orphaned(pcb, []) == pcb;
      while k < |ts|
        invariant 0 <= k <= |ts| && pcb == Orphaned(p0, ts[..k])
      {
        assert ts[..k+1] == ts[..k] + [ts[k]];
        pcb := pcb[ts[k] := pcb[ts[k]].(parent := 0)];
        k := k + 1;
      }
      assert ts[..|ts|] == ts;
    }

    /** Those waiting for `c`, or for its parent, run. */
    method WakeOnExit(c: Task)
      requires c in pcb && pcb[c].parent in pcb && pcb[c].parent != 0
      requires NoDup(wait) && (forall t :: t in wait ==> t in pcb) && ExitFits(View(), c)
      modifies this
      ensures View() == WokenByExit(old(View()), c)
    {
      hide Pick, NoDup, WokenUp;
      ghost var s := View();
      var n := SysWakeup(pcb[c].pid);
      if n == 0 {
        NoneWoken(s, s.pcb[c].pid);
        n := SysWakeup(pcb[pcb[c].parent].pid);
      }
    }

    /** The parent of `c` forgets it and its children have no parent. */
    method LeaveTree(c: Task)
      requires c in pcb && (pcb[c].parent == 0 || pcb[c].parent in pcb)
      requires forall t :: t in pcb[c].children ==> t in pcb
      modifies `pcb
      ensures pcb == Bereft(old(pcb), c)
    {
      hide Remove;
      ghost var p0 := pcb;
      if pcb[c].parent != 0 {
        var p := pcb[c].parent;
        pcb := pcb[p := pcb[p].(wakeupReturn := pcb[c].pid)];
        pcb := pcb[p := pcb[p].(children := Remove(pcb[p].children, c))];
        RemoveKeeps(p0[p].children, c);
      }
      assert pcb == Unlisted(p0, c);
      if pcb[c].children != [] {
        RemoveParentInfoFromChildren(c);
      }
    }

    /** The exit of `c`: whoever waits for it wakes, its parent forgets it and its
        children have no parent. */
    method HandleWakeupOnExit(c: Task)
      requires c in pcb && (pcb[c].parent == 0 || pcb[c].parent in pcb)
      requires NoDup(wait) && (forall t :: t in wait ==> t in pcb)
      requires forall t :: t in pcb[c].children ==> t in pcb
      requires ExitFits(View(), c)
      modifies this
      ensures var w := WokenByExit(old(View()), c);
              c in w.pcb && View() == w.(pcb := Bereft(w.pcb, c))
    {
      hide Pick, NoDup, Bereft, ExitFits;
      ghost var s := View();
      if pcb[c].parent != 0 {
        WakeOnExit(c);
      }
      WokenTree(s, c);
      LeaveTree(c);
    }

    /** The current task terminates and another becomes current. */
    method SysExit(ghost idle: Task)
      requires Settled(View(), idle) && CanStep(View(), Exit, idle)
      modifies this, pids
      ensures Settled(View(), idle) && View() == Step(old(View()), Exit, idle)
    {
      hide Inv, Yielded, WokenByExit, Bereft;
      ghost var s := View();
      StepInv(s, Exit, idle);
      ExitStays(s, idle);
      DeadPid(Exiting(s), idle);
      ExitFacts(s, idle);
      var c := run[|run|-1];
      run := run[..|run|-1];
      dead := [c] + dead;
      noproc := noproc - 1;
      HandleWakeupOnExit(c);
      SysYield();
    }

    method AddToTaskList(t: Task) returns (r: int)
      modifies this
      ensures noproc == old(noproc) + (if r == 0 then 1 else 0) && run == (if r == 0 then [t] + old(run) else old(run))
      ensures r == if old(noproc) + 1 > limit then -1 else 0
      ensures wait == old(wait) && timer == old(timer) && dead == old(dead) && pcb == old(pcb) && limit == old(limit)
    {
      if noproc + 1 > limit {
        return -1;
      }
      run := [t] + run;
      noproc := noproc + 1;
      return 0;
    }

    /** A child of the current process, `fail` telling where memory runs out; the
        scheduler is in order afterwards exactly if `ForkSafe` says so. */
    method SysFork(c: Task, rem: nat, ret: nat, fail: Failure, ghost idle: Task) returns (r: int)
      requires Settled(View(), idle) && c != 0 && c !in pcb
      modifies this, pids
      ensures Forkable(old(View())) && View() == Forked(old(View()), c, rem, ret, fail)
      ensures Settled(View(), idle) <==> ForkSafe(old(View()), fail)
      ensures r == if fail != Success || old(noproc) + 1 > old(limit) || NextPid(old(pids[..]), 1) == NO_PID then -1
                   else NextPid(old(pids[..]), 1)
    {
      hide Inv, NextPid, TakePid;
      ghost var s := View();
      ForkedInv(s, c, rem, ret, fail, idle);
      StepPossible(s, Yield, idle);
      if fail == BeforePid {
        return -1;
      }
      var p := run[|run|-1];
      var pid := GetNextPid();
      if fail == BeforeLink {
        return -1;
      }
      pcb := pcb[c := Pcb(pid, p, [], pcb[p].waitDesc, rem, ret)];
      pcb := pcb[p := pcb[p].(children := pcb[p].children + [c])];
      assert pcb == Adopted(s.pcb, p, c, Child(s.pcb, p, pid, rem, ret));
      if fail == AfterLink {
        pcb := pcb - {c};
        return -1;
      }
      var st := AddToTaskList(c);
      if st == -1 {
        pcb := pcb - {c};
        return -1;
      }
      // sixty-four set bits read as a signed number
      return if pid == NO_PID then -1 else pid;
    }
  }
}
