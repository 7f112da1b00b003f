/** The tasks of sys/scheduler/scheduler.c and sys/scheduler/pcb.c as values: the
    four rings, the PID table and the process tree, and what each call makes of them.
    A task is named by the address of its control block; 0 is no task. */
module Tasks {

  type Task = nat

  /** ULIMIT: PIDs are 1 .. 999. */
  const ULIMIT: nat := 1000

  /** The wait descriptor of a sleeper whose time is over. */
  const TIMER_ELAPSED: nat := ULIMIT + 1

  const NOT_WAITING: nat := 0

  /** The most sleepers one wakeup can collect. */
  const MAX_WAIT_PROC: nat := 20

  /** The limit on processes that the kernel starts with. */
  const NPROC_MAX: nat := 1024

  /** What getNextPid returns when every PID is taken: -1 as an unsigned word. */
  const NO_PID: nat := 0x1_0000_0000_0000_0000 - 1

  datatype Pcb = Pcb(pid: nat, parent: Task, children: seq<Task>, waitDesc: nat, sleepRem: nat, wakeupReturn: nat)

  type Pcbs = map<Task, Pcb>

  datatype Sched = Sched(
    run: seq<Task>, wait: seq<Task>, timer: seq<Task>, dead: seq<Task>,
    pcb: Pcbs, pids: seq<bool>, noproc: nat, limit: nat)

  // ---------- sequences without repetition ----------

  ghost predicate NoDup(s: seq<Task>) {
    forall i, j :: 0 <= i < j < |s| ==> s[i] != s[j]
  }

  function Rotate(s: seq<Task>): seq<Task>
    requires s != []
  {
    s[1..] + [s[0]]
  }

  function Init(s: seq<Task>): seq<Task>
    requires s != []
  {
    s[..|s|-1]
  }

  function Last(s: seq<Task>): Task
    requires s != []
  {
    s[|s|-1]
  }

  lemma RotateFacts(s: seq<Task>)
    requires s != [] && NoDup(s)
    ensures NoDup(Rotate(s)) && |Rotate(s)| == |s|
    ensures forall t :: t in Rotate(s) <==> t in s
  {
    var r := Rotate(s);
    forall t | t in s ensures t in r {
      var i :| 0 <= i < |s| && s[i] == t;
      if i > 0 {
        assert r[i-1] == t;
      } else {
        assert r[|s|-1] == t;
      }
    }
  }

  lemma InitFacts(s: seq<Task>)
    requires s != [] && NoDup(s)
    ensures NoDup(Init(s)) && |Init(s)| == |s| - 1
    ensures forall t :: t in Init(s) <==> t in s && t != Last(s)
  {
    forall t | t in s && t != Last(s) ensures t in Init(s) {
      var i :| 0 <= i < |s| && s[i] == t;
      assert Init(s)[i] == t;
    }
  }

  lemma ConsFacts(x: Task, s: seq<Task>)
    requires NoDup(s) && x !in s
    ensures NoDup([x] + s) && |[x] + s| == |s| + 1
    ensures forall t :: t in [x] + s <==> t in s || t == x
  {
  }

  lemma ConcatFacts(a: seq<Task>, b: seq<Task>)
    requires NoDup(a) && NoDup(b) && forall t :: t in a ==> t !in b
    ensures NoDup(a + b)
  {
    forall i, j | 0 <= i < j < |a + b| ensures (a + b)[i] != (a + b)[j] {
      if i < |a| <= j {
        assert a[i] in a && b[j-|a|] in b;
      }
    }
  }

  /** The tasks of `q` that wait for `d` (`yes`), or those that do not, in order. */
  function Pick(q: seq<Task>, pcb: Pcbs, d: nat, yes: bool): (r: seq<Task>) {
    if q == [] then []
    else if (q[0] in pcb && pcb[q[0]].waitDesc == d) == yes then [q[0]] + Pick(q[1..], pcb, d, yes)
    else Pick(q[1..], pcb, d, yes)
  }

  lemma {:induction false} PickFacts(q: seq<Task>, pcb: Pcbs, d: nat, yes: bool)
    requires NoDup(q)
    ensures NoDup(Pick(q, pcb, d, yes))
    ensures forall t :: t in Pick(q, pcb, d, yes) <==> t in q && (t in pcb && pcb[t].waitDesc == d) == yes
  {
    if q != [] {
      PickFacts(q[1..], pcb, d, yes);
      assert forall t :: t in q <==> t == q[0] || t in q[1..];
      if (q[0] in pcb && pcb[q[0]].waitDesc == d) == yes {
        ConsFacts(q[0], Pick(q[1..], pcb, d, yes));
      }
    }
  }

  lemma {:induction false} PickCount(q: seq<Task>, pcb: Pcbs, d: nat)
    ensures |Pick(q, pcb, d, true)| + |Pick(q, pcb, d, false)| == |q|
  {
    if q != [] {
      PickCount(q[1..], pcb, d);
    }
  }

  /** `t` stands before `u`. */
  ghost predicate Before(s: seq<Task>, t: Task, u: Task) {
    exists i, j :: 0 <= i < j < |s| && s[i] == t && s[j] == u
  }

  lemma BeforeCons(x: Task, s: seq<Task>, t: Task, u: Task)
    ensures Before([x] + s, t, u) <==> (x == t && u in s) || Before(s, t, u)
  {
    var r := [x] + s;
    if x == t && u in s {
      var j :| 0 <= j < |s| && s[j] == u;
      assert r[0] == t && r[j+1] == u;
    }
    if Before(s, t, u) {
      var i, j :| 0 <= i < j < |s| && s[i] == t && s[j] == u;
      assert r[i+1] == t && r[j+1] == u;
    }
    if Before(r, t, u) {
      var i, j :| 0 <= i < j < |r| && r[i] == t && r[j] == u;
      assert s[j-1] == u;
      if i > 0 {
        assert s[i-1] == t;
      }
    }
  }

  lemma {:induction false} PickOrder(q: seq<Task>, pcb: Pcbs, d: nat, yes: bool, t: Task, u: Task)
    requires NoDup(q) && Before(q, t, u)
    requires t in Pick(q, pcb, d, yes) && u in Pick(q, pcb, d, yes)
    ensures Before(Pick(q, pcb, d, yes), t, u)
  {
    var rest := Pick(q[1..], pcb, d, yes);
    PickFacts(q, pcb, d, yes);
    PickFacts(q[1..], pcb, d, yes);
    assert NoDup(q[1..]) && q[0] !in q[1..];
    hide Before, NoDup;
    assert q == [q[0]] + q[1..];
    BeforeCons(q[0], q[1..], t, u);
    BeforeCons(q[0], rest, t, u);
    if Before(q[1..], t, u) {
      BeforeBoth(q[1..], t, u);
      PickOrder(q[1..], pcb, d, yes, t, u);
    }
  }

  lemma BeforeBoth(s: seq<Task>, t: Task, u: Task)
    requires Before(s, t, u)
    ensures t in s && u in s
  {
  }

  // ---------- the invariant ----------

  /** Every task is on exactly one ring, once; the live ones are counted. */
  ghost predicate Partition(s: Sched) {
    && NoDup(s.run) && NoDup(s.wait) && NoDup(s.timer) && |s.dead| <= 1
    && (forall t :: t in s.run ==> t !in s.wait && t !in s.timer && t !in s.dead)
    && (forall t :: t in s.wait ==> t !in s.timer && t !in s.dead)
    && (forall t :: t in s.timer ==> t !in s.dead)
    && (forall t :: t in s.pcb <==> t in s.run || t in s.wait || t in s.timer || t in s.dead)
    && 0 !in s.pcb
    && s.noproc == |s.run| + |s.wait| + |s.timer|
  }

  /** The PID table holds exactly the PIDs of the tasks, and no two share one. */
  ghost predicate PidsOk(pcb: Pcbs, pids: seq<bool>) {
    && |pids| == ULIMIT
    && (forall t :: t in pcb ==> 1 <= pcb[t].pid < ULIMIT && pids[pcb[t].pid])
    && (forall t, u :: t in pcb && u in pcb && t != u ==> pcb[t].pid != pcb[u].pid)
    && (forall p :: 1 <= p < ULIMIT && pids[p] ==> Taken(pcb, p))
  }

  ghost predicate Taken(pcb: Pcbs, p: nat) {
    exists t :: t in pcb && pcb[t].pid == p
  }

  ghost predicate Alive(pcb: Pcbs, dead: seq<Task>, t: Task) { t in pcb && t !in dead }

  /** A live task's parent is none or another live task that lists it; a live task lists
      each of its children once, and only those. */
  ghost predicate TreeOk(pcb: Pcbs, dead: seq<Task>) {
    && (forall t {:trigger pcb[t].parent} :: Alive(pcb, dead, t) && pcb[t].parent != 0 ==>
          pcb[t].parent != t && Alive(pcb, dead, pcb[t].parent) && t in pcb[pcb[t].parent].children)
    && (forall t {:trigger pcb[t].children} :: Alive(pcb, dead, t) ==> NoDup(pcb[t].children))
    && (forall t, c {:trigger c in pcb[t].children} :: Alive(pcb, dead, t) && c in pcb[t].children ==>
          Alive(pcb, dead, c) && pcb[c].parent == t)
  }

  /** Only a sleeper just timed out carries TIMER_ELAPSED, and none is left behind. */
  ghost predicate SleepOk(s: Sched) {
    && (forall t :: t in s.run && t in s.pcb ==> s.pcb[t].waitDesc != TIMER_ELAPSED)
    && (forall t :: t in s.timer && t in s.pcb ==> s.pcb[t].waitDesc != TIMER_ELAPSED && s.pcb[t].sleepRem >= 1)
  }

  ghost predicate Inv(s: Sched, idle: Task) {
    Partition(s) && idle in s.run && PidsOk(s.pcb, s.pids) && TreeOk(s.pcb, s.dead) && SleepOk(s)
  }

  // ---------- the calls ----------

  /** Whoever is at the tail of the run ring. */
  function Current(s: Sched): Task
    requires s.run != []
  {
    Last(s.run)
  }

  /** One terminated task is forgotten and its PID freed. */
  function Cleaned(s: Sched): Sched {
    if s.dead == [] || s.dead[0] !in s.pcb then s
    else
      var d := s.dead[0];
      var p := s.pcb[d].pid;
      s.(dead := s.dead[1..], pcb := s.pcb - {d}, pids := if p < |s.pids| then s.pids[p := false] else s.pids)
  }

  /** sys_yield: the head of the run ring goes to its tail, and with the switch one
      terminated task is cleaned up. */
  function Yielded(s: Sched): Sched
    requires s.run != []
  {
    Cleaned(s.(run := Rotate(s.run)))
  }

  lemma CleanedPids(pcb: Pcbs, pids: seq<bool>, d: Task)
    requires PidsOk(pcb, pids) && d in pcb
    ensures PidsOk(pcb - {d}, pids[pcb[d].pid := false])
  {
    var c := pcb - {d};
    var f := pids[pcb[d].pid := false];
    forall p | 1 <= p < ULIMIT && f[p] ensures Taken(c, p) {
      var t :| t in pcb && pcb[t].pid == p;
      assert t in c;
    }
  }

  lemma CleanedTree(pcb: Pcbs, d: Task)
    requires TreeOk(pcb, [d]) && d in pcb
    ensures TreeOk(pcb - {d}, [])
  {
    hide NoDup;
  }

  lemma CleanedInv(s: Sched, idle: Task)
    requires Inv(s, idle)
    ensures Inv(Cleaned(s), idle) && Cleaned(s).dead == []
  {
    hide PidsOk, NoDup, TreeOk;
    if s.dead != [] {
      PidInTable(s.pcb, s.pids, s.dead[0]);
      CleanedPids(s.pcb, s.pids, s.dead[0]);
      assert s.dead == [s.dead[0]];
      CleanedTree(s.pcb, s.dead[0]);
    }
  }

  lemma PidInTable(pcb: Pcbs, pids: seq<bool>, t: Task)
    requires PidsOk(pcb, pids) && t in pcb
    ensures 1 <= pcb[t].pid < |pids|
  {
  }

  lemma YieldedInv(s: Sched, idle: Task)
    requires Inv(s, idle)
    ensures Inv(Yielded(s), idle) && Yielded(s).dead == []
  {
    hide PidsOk, NoDup, TreeOk, Rotate, Cleaned;
    RotateFacts(s.run);
    CleanedInv(s.(run := Rotate(s.run)), idle);
  }

  // ---------- waking ----------

  /** Same tasks with the same PIDs, parents and children. */
  ghost predicate SameTree(a: Pcbs, b: Pcbs) {
    && (forall t :: t in a <==> t in b)
    && (forall t :: t in a ==> a[t].pid == b[t].pid && a[t].parent == b[t].parent && a[t].children == b[t].children)
  }

  lemma SameTreeKeeps(a: Pcbs, b: Pcbs, pids: seq<bool>, dead: seq<Task>)
    requires SameTree(a, b) && PidsOk(a, pids) && TreeOk(a, dead)
    ensures PidsOk(b, pids) && TreeOk(b, dead)
  {
    hide NoDup, PidsOk;
    SamePids(a, b, pids);
    forall t | Alive(b, dead, t) ensures Alive(a, dead, t) && NoDup(b[t].children) {
      assert a[t].children == b[t].children;
    }
  }

  function Woken(pcb: Pcbs, ts: seq<Task>): Pcbs {
    map t | t in pcb :: if t in ts then pcb[t].(waitDesc := NOT_WAITING) else pcb[t]
  }

  /** _sys_wakeup on the wait ring: the sleepers on `d` go, in their order, to the
      head of the run ring. */
  function WokenUp(s: Sched, d: nat): Sched {
    var m := Pick(s.wait, s.pcb, d, true);
    s.(run := m + s.run, wait := Pick(s.wait, s.pcb, d, false), pcb := Woken(s.pcb, m))
  }

  /** _sys_wakeup on the timer ring. */
  function TimedOut(s: Sched): Sched {
    var m := Pick(s.timer, s.pcb, TIMER_ELAPSED, true);
    s.(run := m + s.run, timer := Pick(s.timer, s.pcb, TIMER_ELAPSED, false), pcb := Woken(s.pcb, m))
  }

  /** One less on an unsigned 64-bit counter. */
  function Dec(n: nat): nat {
    if n == 0 then NO_PID else n - 1
  }

  function TickedPcb(p: Pcb): Pcb {
    if Dec(p.sleepRem) == 0 then p.(sleepRem := 0, waitDesc := TIMER_ELAPSED) else p.(sleepRem := Dec(p.sleepRem))
  }

  function Ticked(pcb: Pcbs, timer: seq<Task>): Pcbs {
    map t | t in pcb :: if t in timer then TickedPcb(pcb[t]) else pcb[t]
  }

  /** sys_wakeup_timer: one tick for every timed sleeper. */
  function Tick(s: Sched): Sched {
    TimedOut(s.(pcb := Ticked(s.pcb, s.timer)))
  }

  /** What waking needs and keeps of the rings. */
  ghost predicate RingsOk(s: Sched, idle: Task) {
    Partition(s) && idle in s.run && SleepOk(s)
  }

  lemma WokenUpRings(s: Sched, d: nat, idle: Task)
    requires RingsOk(s, idle)
    ensures RingsOk(WokenUp(s, d), idle) && SameTree(s.pcb, WokenUp(s, d).pcb)
  {
    hide NoDup, Pick;
    var m := Pick(s.wait, s.pcb, d, true);
    PickFacts(s.wait, s.pcb, d, true);
    PickFacts(s.wait, s.pcb, d, false);
    PickCount(s.wait, s.pcb, d);
    ConcatFacts(m, s.run);
  }

  lemma WokenUpInv(s: Sched, d: nat, idle: Task)
    requires Inv(s, idle)
    ensures Inv(WokenUp(s, d), idle)
  {
    hide Partition, SleepOk, PidsOk, TreeOk, SameTree;
    WokenUpRings(s, d, idle);
    SameTreeKeeps(s.pcb, WokenUp(s, d).pcb, s.pids, s.dead);
  }

  lemma TickInv(s: Sched, idle: Task)
    requires Inv(s, idle)
    ensures Inv(Tick(s), idle)
  {
    hide NoDup, PidsOk, TreeOk, Pick;
    var p := Ticked(s.pcb, s.timer);
    var m := Pick(s.timer, p, TIMER_ELAPSED, true);
    PickFacts(s.timer, p, TIMER_ELAPSED, true);
    PickFacts(s.timer, p, TIMER_ELAPSED, false);
    PickCount(s.timer, p, TIMER_ELAPSED);
    ConcatFacts(m, s.run);
    SameTreeKeeps(s.pcb, Woken(p, m), s.pids, s.dead);
  }

  // ---------- sleeping ----------

  /** sys_sleep up to its yield: the current task to the head of the wait ring. */
  function Waiting(s: Sched, d: nat): Sched
    requires s.run != [] && Current(s) in s.pcb
  {
    var c := Current(s);
    s.(run := Init(s.run), wait := [c] + s.wait, pcb := s.pcb[c := s.pcb[c].(waitDesc := d)])
  }

  /** sys_sleep_timer up to its yield. */
  function Dozing(s: Sched, n: nat): Sched
    requires s.run != [] && Current(s) in s.pcb
  {
    var c := Current(s);
    s.(run := Init(s.run), timer := [c] + s.timer, pcb := s.pcb[c := s.pcb[c].(sleepRem := n)])
  }

  lemma WaitingInv(s: Sched, d: nat, idle: Task)
    requires Inv(s, idle) && Current(s) != idle
    ensures Inv(Waiting(s, d), idle)
  {
    hide NoDup, PidsOk, TreeOk, Init;
    InitFacts(s.run);
    ConsFacts(Current(s), s.wait);
    SameTreeKeeps(s.pcb, Waiting(s, d).pcb, s.pids, s.dead);
  }

  lemma DozingInv(s: Sched, n: nat, idle: Task)
    requires Inv(s, idle) && Current(s) != idle && n > 0
    ensures Inv(Dozing(s, n), idle)
  {
    hide NoDup, PidsOk, TreeOk, Init;
    InitFacts(s.run);
    ConsFacts(Current(s), s.timer);
    SameTreeKeeps(s.pcb, Dozing(s, n).pcb, s.pids, s.dead);
  }

  // ---------- exit ----------

  function Remove(s: seq<Task>, x: Task): seq<Task> {
    if s == [] then [] else if s[0] == x then s[1..] else [s[0]] + Remove(s[1..], x)
  }

  lemma {:induction false} RemoveFacts(s: seq<Task>, x: Task)
    requires NoDup(s)
    ensures NoDup(Remove(s, x)) && forall t :: t in Remove(s, x) <==> t in s && t != x
  {
    if s != [] {
      RemoveFacts(s[1..], x);
      assert forall t :: t in s <==> t == s[0] || t in s[1..];
      if s[0] != x {
        ConsFacts(s[0], Remove(s[1..], x));
      }
    }
  }

  /** The parent of `c` loses it from its list and learns its PID. */
  function Unlisted(pcb: Pcbs, c: Task): Pcbs
    requires c in pcb
  {
    var p := pcb[c].parent;
    if p == 0 || p !in pcb then pcb
    else pcb[p := pcb[p].(wakeupReturn := pcb[c].pid, children := Remove(pcb[p].children, c))]
  }

  function Orphaned(pcb: Pcbs, ts: seq<Task>): Pcbs {
    map t | t in pcb :: if t in ts then pcb[t].(parent := 0) else pcb[t]
  }

  /** The process tree without `c`. */
  function Bereft(pcb: Pcbs, c: Task): Pcbs
    requires c in pcb
  {
    Orphaned(Unlisted(pcb, c), Unlisted(pcb, c)[c].children)
  }

  lemma BereftAt(pcb: Pcbs, c: Task, t: Task)
    requires TreeOk(pcb, []) && 0 !in pcb && c in pcb && t in pcb && t != c
    ensures var b := Bereft(pcb, c);
            && t in b && b[t].parent == (if pcb[t].parent == c then 0 else pcb[t].parent)
            && NoDup(b[t].children)
            && (forall u :: u in b[t].children <==> u in pcb[t].children && u != c)
  {
    hide NoDup, Remove;
    var p := pcb[c].parent;
    assert Alive(pcb, [], c) && Alive(pcb, [], t);
    assert NoDup(pcb[t].children) && NoDup(pcb[c].children);
    RemoveFacts(pcb[t].children, c);
    RemoveFacts(pcb[c].children, c);
    assert t in pcb[c].children <==> pcb[t].parent == c;
    assert c in pcb[t].children ==> p == t;
  }

  lemma BereftTree(pcb: Pcbs, c: Task)
    requires TreeOk(pcb, []) && c in pcb && 0 !in pcb
    ensures TreeOk(Bereft(pcb, c), [c])
  {
    hide NoDup, Bereft;
    var b := Bereft(pcb, c);
    BereftKeys(pcb, c);
    forall t: Task | Alive(b, [c], t)
      ensures NoDup(b[t].children)
      ensures b[t].parent != 0 ==> b[t].parent != t && Alive(b, [c], b[t].parent) && t in b[b[t].parent].children
    {
      BereftAt(pcb, c, t);
      assert Alive(pcb, [], t);
      if b[t].parent != 0 {
        BereftAt(pcb, c, b[t].parent);
      }
    }
    forall t: Task, u: Task | Alive(b, [c], t) && u in b[t].children ensures Alive(b, [c], u) && b[u].parent == t {
      BereftAt(pcb, c, t);
      assert Alive(pcb, [], t);
      BereftAt(pcb, c, u);
    }
  }

  lemma BereftKeys(pcb: Pcbs, c: Task)
    requires c in pcb
    ensures forall t :: t in Bereft(pcb, c) <==> t in pcb
    ensures forall t :: t in pcb ==> Bereft(pcb, c)[t].pid == pcb[t].pid
  {
  }

  lemma SamePids(a: Pcbs, b: Pcbs, pids: seq<bool>)
    requires PidsOk(a, pids)
    requires (forall t :: t in b <==> t in a) && forall t :: t in a ==> b[t].pid == a[t].pid
    ensures PidsOk(b, pids)
  {
    forall q | 1 <= q < ULIMIT && pids[q] ensures Taken(b, q) {
      var t :| t in a && a[t].pid == q;
      assert t in b;
    }
  }

  /** The current task on the terminated ring. */
  function Terminated(s: Sched): Sched
    requires s.run != [] && s.noproc > 0
  {
    s.(run := Init(s.run), dead := [Current(s)] + s.dead, noproc := s.noproc - 1)
  }

  /** Those waiting for `c`, or if there are none those waiting for its parent. */
  function WokenByExit(s: Sched, c: Task): Sched
    requires c in s.pcb
  {
    var p := s.pcb[c].parent;
    if p == 0 || p !in s.pcb then s
    else if Pick(s.wait, s.pcb, s.pcb[c].pid, true) != [] then WokenUp(s, s.pcb[c].pid)
    else WokenUp(WokenUp(s, s.pcb[c].pid), s.pcb[p].pid)
  }

  /** The exit of `c` finds no more sleepers than one wakeup can collect. */
  ghost predicate ExitFits(s: Sched, c: Task) {
    c in s.pcb && s.pcb[c].parent in s.pcb ==>
      && |Pick(s.wait, s.pcb, s.pcb[c].pid, true)| <= MAX_WAIT_PROC
      && |Pick(s.wait, s.pcb, s.pcb[s.pcb[c].parent].pid, true)| <= MAX_WAIT_PROC
  }

  /** sys_exit up to its yield. */
  function Exiting(s: Sched): Sched
    requires s.run != [] && s.noproc > 0 && Current(s) in s.pcb
  {
    var w := WokenByExit(Terminated(s), Current(s));
    if Current(s) in w.pcb then w.(pcb := Bereft(w.pcb, Current(s))) else w
  }

  lemma TerminatedRings(s: Sched, idle: Task)
    requires RingsOk(s, idle) && s.dead == [] && Current(s) != idle
    ensures s.noproc > 0 && RingsOk(Terminated(s), idle) && Current(s) in s.pcb
  {
    hide NoDup, Init;
    InitFacts(s.run);
  }

  lemma WokenByExitRings(s: Sched, c: Task, idle: Task)
    requires RingsOk(s, idle) && c in s.pcb
    ensures RingsOk(WokenByExit(s, c), idle) && SameTree(s.pcb, WokenByExit(s, c).pcb)
  {
    hide RingsOk, Pick, WokenUp;
    var p := s.pcb[c].parent;
    if p != 0 && p in s.pcb {
      WokenUpRings(s, s.pcb[c].pid, idle);
      if Pick(s.wait, s.pcb, s.pcb[c].pid, true) == [] {
        WokenUpRings(WokenUp(s, s.pcb[c].pid), s.pcb[p].pid, idle);
      }
    }
  }

  lemma BereftRings(s: Sched, c: Task, idle: Task)
    requires RingsOk(s, idle) && c in s.pcb
    ensures RingsOk(s.(pcb := Bereft(s.pcb, c)), idle) && 0 !in s.pcb
  {
    hide NoDup, Remove;
  }

  lemma ExitingInv(s: Sched, idle: Task)
    requires Inv(s, idle) && s.dead == [] && Current(s) != idle
    ensures s.noproc > 0 && Current(s) in s.pcb
    ensures Inv(Exiting(s), idle)
  {
    hide Partition, SleepOk, PidsOk, TreeOk, Terminated, WokenByExit, Bereft;
    var c := Current(s);
    TerminatedRings(s, idle);
    TerminatedFacts(s);
    WokenByExitRings(Terminated(s), c, idle);
    var w := WokenByExit(Terminated(s), c);
    WokenByExitFrame(Terminated(s), c);
    SameTreeKeeps(s.pcb, w.pcb, s.pids, []);
    BereftRings(w, c, idle);
    BereftTree(w.pcb, c);
    BereftKeys(w.pcb, c);
    SamePids(w.pcb, Bereft(w.pcb, c), s.pids);
  }

  lemma TerminatedFacts(s: Sched)
    requires s.run != [] && s.noproc > 0 && s.dead == []
    ensures var e := Terminated(s); e.pcb == s.pcb && e.pids == s.pids && e.dead == [Current(s)]
  {
  }

  lemma WokenByExitFrame(s: Sched, c: Task)
    requires c in s.pcb
    ensures var w := WokenByExit(s, c); w.pids == s.pids && w.dead == s.dead && c in w.pcb
  {
  }

  // ---------- fork ----------

  /** getNextPid: the least free PID from `i` on. */
  function NextPid(pids: seq<bool>, i: nat): (p: nat)
    requires |pids| == ULIMIT && i <= ULIMIT
    ensures p == NO_PID || (i <= p < ULIMIT && !pids[p])
    ensures forall q :: i <= q < ULIMIT && q < p ==> pids[q]
    decreases ULIMIT - i
  {
    if i == ULIMIT then NO_PID else if !pids[i] then i else NextPid(pids, i + 1)
  }

  function TakePid(pids: seq<bool>): seq<bool>
    requires |pids| == ULIMIT
  {
    if NextPid(pids, 1) < ULIMIT then pids[NextPid(pids, 1) := true] else pids
  }

  /** The child of `p` made by fork; its timer and wakeup fields are not set. */
  function Child(pcb: Pcbs, p: Task, pid: nat, rem: nat, ret: nat): Pcb
    requires p in pcb
  {
    Pcb(pid, p, [], pcb[p].waitDesc, rem, ret)
  }

  /** Child `c` in the process tree under `p`. */
  function Adopted(pcb: Pcbs, p: Task, c: Task, child: Pcb): Pcbs
    requires p in pcb
  {
    pcb[p := pcb[p].(children := pcb[p].children + [c])][c := child]
  }

  /** Where fork may run out of memory: before it asks for a PID, before it enters the
      child in the tree (the copy of the name), or after that (page tables, task
      segment, regions). */
  datatype Failure = Success | BeforePid | BeforeLink | AfterLink

  /** sys_fork: PID, tree and run ring. When it fails, or the process limit is reached,
      the control block is given back, but not the PID nor the place among the
      children. */
  function Forked(s: Sched, c: Task, rem: nat, ret: nat, fail: Failure): Sched
    requires s.run != [] && Current(s) in s.pcb && |s.pids| == ULIMIT
  {
    var p := Current(s);
    var pcb := Adopted(s.pcb, p, c, Child(s.pcb, p, NextPid(s.pids, 1), rem, ret));
    if fail == BeforePid then s
    else if fail == BeforeLink then s.(pids := TakePid(s.pids))
    else if fail == AfterLink || s.noproc + 1 > s.limit then s.(pcb := pcb - {c}, pids := TakePid(s.pids))
    else s.(run := [c] + s.run, pcb := pcb, pids := TakePid(s.pids), noproc := s.noproc + 1)
  }

  ghost predicate PidFree(s: Sched) {
    exists p :: 1 <= p < ULIMIT && p < |s.pids| && !s.pids[p]
  }

  ghost predicate CanFork(s: Sched) { s.noproc + 1 <= s.limit && PidFree(s) }

  /** The outcomes of fork that leave the scheduler in order. */
  ghost predicate ForkSafe(s: Sched, fail: Failure) {
    match fail
    case Success => CanFork(s)
    case BeforePid => true
    case BeforeLink => !PidFree(s)
    case AfterLink => false
  }

  lemma AdoptedPids(pcb: Pcbs, pids: seq<bool>, p: Task, c: Task, child: Pcb)
    requires PidsOk(pcb, pids) && p in pcb && c !in pcb
    requires child.pid == NextPid(pids, 1) < ULIMIT
    ensures PidsOk(Adopted(pcb, p, c, child), TakePid(pids))
  {
    hide NextPid;
    var b, f := Adopted(pcb, p, c, child), TakePid(pids);
    assert forall t :: t in pcb ==> b[t].pid == pcb[t].pid != child.pid;
    forall q | 1 <= q < ULIMIT && f[q] ensures Taken(b, q) {
      if q == child.pid {
        assert c in b && b[c].pid == q;
      } else {
        var t :| t in pcb && pcb[t].pid == q;
        assert t in b && b[t].pid == q;
      }
    }
  }

  lemma AdoptedTree(pcb: Pcbs, p: Task, c: Task, child: Pcb)
    requires TreeOk(pcb, []) && p in pcb && c !in pcb && child.parent == p && child.children == []
    ensures TreeOk(Adopted(pcb, p, c, child), [])
  {
    hide NoDup;
    var b := Adopted(pcb, p, c, child);
    assert Alive(pcb, [], p) && c !in pcb[p].children;
    SnocFacts(pcb[p].children, c);
    forall t: Task | Alive(b, [], t)
      ensures NoDup(b[t].children)
      ensures b[t].parent != 0 ==> b[t].parent != t && Alive(b, [], b[t].parent) && t in b[b[t].parent].children
    {
      assert t != c ==> Alive(pcb, [], t) && b[t].parent == pcb[t].parent;
      if t == c { EmptyFacts(); }
    }
    forall t: Task, u: Task | Alive(b, [], t) && u in b[t].children ensures Alive(b, [], u) && b[u].parent == t {
      assert t != c && Alive(pcb, [], t);
      assert u != c ==> u in pcb[t].children;
    }
  }

  lemma EmptyFacts()
    ensures NoDup([])
  {
  }

  lemma SnocFacts(s: seq<Task>, x: Task)
    requires NoDup(s) && x !in s
    ensures NoDup(s + [x]) && forall t :: t in s + [x] <==> t in s || t == x
  {
  }

  lemma ForkedRings(s: Sched, c: Task, rem: nat, ret: nat, idle: Task)
    requires RingsOk(s, idle) && c !in s.pcb && c != 0 && |s.pids| == ULIMIT && s.noproc + 1 <= s.limit
    ensures Current(s) in s.pcb && RingsOk(Forked(s, c, rem, ret, Success), idle)
  {
    hide NoDup;
    ConsFacts(c, s.run);
  }

  /** A PID taken for nobody is lost. */
  lemma LostPid(pcb: Pcbs, pids: seq<bool>)
    requires PidsOk(pcb, pids)
    ensures PidsOk(pcb, TakePid(pids)) <==> NextPid(pids, 1) == NO_PID
  {
    hide NextPid;
    var p := NextPid(pids, 1);
    if p != NO_PID {
      assert TakePid(pids)[p] && !Taken(pcb, p);
    }
  }

  lemma TreeFails(pcb: Pcbs, p: Task, c: Task)
    requires p in pcb && c !in pcb && c in pcb[p].children
    ensures !TreeOk(pcb, [])
  {
    assert Alive(pcb, [], p);
  }

  /** What a fork that succeeds makes: a task at the head of the run ring with the least
      free PID, the last child of its parent, which is the only task it changes. */
  lemma ForkedChild(s: Sched, c: Task, rem: nat, ret: nat, t: Task)
    requires s.run != [] && Current(s) in s.pcb && |s.pids| == ULIMIT && CanFork(s) && c !in s.pcb
    ensures var s', p := Forked(s, c, rem, ret, Success), Current(s);
            && s'.run[0] == c && s'.run[1..] == s.run && s'.wait == s.wait && s'.timer == s.timer
            && c in s'.pcb && s'.pcb[c].parent == p && s'.pcb[c].children == [] && s'.pcb[c].waitDesc == s.pcb[p].waitDesc
            && 1 <= s'.pcb[c].pid < ULIMIT && !s.pids[s'.pcb[c].pid] && (forall q :: 1 <= q < s'.pcb[c].pid ==> s.pids[q])
            && s'.pcb[p].children == s.pcb[p].children + [c]
            && (t in s.pcb ==> t in s'.pcb && s'.pcb[t].(children := []) == s.pcb[t].(children := []) && (t != p ==> s'.pcb[t] == s.pcb[t]))
  {
    hide NextPid;
  }

  /** What a fork that fails leaves: the rings and every task as they were, but the least
      free PID taken unless it failed before, and the child's name among the children of
      its parent if it got that far. */
  lemma ForkFailed(s: Sched, c: Task, rem: nat, ret: nat, fail: Failure, t: Task, q: nat)
    requires s.run != [] && Current(s) in s.pcb && |s.pids| == ULIMIT && c !in s.pcb
    requires fail != Success || s.noproc + 1 > s.limit
    ensures var s' := Forked(s, c, rem, ret, fail);
            && s' == s.(pcb := s'.pcb, pids := s'.pids) && (t in s'.pcb <==> t in s.pcb)
            && (t in s.pcb ==>
                  var more := if t == Current(s) && fail != BeforePid && fail != BeforeLink then [c] else [];
                  s'.pcb[t] == s.pcb[t].(children := s.pcb[t].children + more))
            && |s'.pids| == ULIMIT
            && (q < ULIMIT ==> (s'.pids[q] <==>
                  s.pids[q] || (fail != BeforePid && q > 0 && forall p :: 0 < p < q ==> s.pids[p])))
  {
  }

  /** Fork keeps the scheduler in order exactly when it succeeds with a free PID and
      below the process limit, or fails before it took or could take a PID. */
  lemma ForkedInv(s: Sched, c: Task, rem: nat, ret: nat, fail: Failure, idle: Task)
    requires Inv(s, idle) && s.dead == [] && c !in s.pcb && c != 0
    ensures |s.pids| == ULIMIT && Current(s) in s.pcb
    ensures Inv(Forked(s, c, rem, ret, fail), idle) <==> ForkSafe(s, fail)
  {
    hide NoDup, TreeOk, SleepOk, NextPid, Taken;
    var p := Current(s);
    var pid := NextPid(s.pids, 1);
    var child := Child(s.pcb, p, pid, rem, ret);
    if fail == BeforeLink {
      LostPid(s.pcb, s.pids);
    } else if fail != BeforePid {
      if fail == AfterLink || s.noproc + 1 > s.limit {
        TreeFails(Forked(s, c, rem, ret, fail).pcb, p, c);
      } else if pid < ULIMIT {
        AdoptedPids(s.pcb, s.pids, p, c, child);
        AdoptedTree(s.pcb, p, c, child);
        ForkedRings(s, c, rem, ret, idle);
      }
    }
  }
}
