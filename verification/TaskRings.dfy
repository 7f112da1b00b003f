/** The scheduler's rings as sys/scheduler/scheduler.c has them: list heads, and the
    list entry embedded in every control block, which is on one ring at a time. */
module TaskRings {
  import opened ListRing
  import T = Tasks

  /** Two rings without a common member. */
  ghost predicate Apart(h: ListHead, a: seq<ListHead>, g: ListHead, b: seq<ListHead>) {
    Members(h, a) !! Members(g, b)
  }

  lemma RemovedFacts(head: ListHead, a: seq<ListHead>, k: nat)
    requires Distinct(head, a) && k < |a|
    ensures Members(head, Removed(a, k)) == Members(head, a) - {a[k]}
  {
    var r := Removed(a, k);
    forall n | n in a && n != a[k] ensures n in r {
      var i :| 0 <= i < |a| && a[i] == n;
      assert r[if i < k then i else i - 1] == n;
    }
  }

  lemma RingDistinct(head: ListHead, nodes: seq<ListHead>)
    requires Ring(head, nodes)
    ensures Distinct(head, nodes)
  {
  }

  /** An entry goes from one ring to the head of another. */
  method MoveToHead(n: ListHead, to: ListHead, ghost from: ListHead, ghost a: seq<ListHead>, ghost b: seq<ListHead>, ghost k: nat)
    requires Ring(from, a) && Ring(to, b) && Apart(from, a, to, b) && k < |a| && n == a[k]
    modifies Members(from, a), Members(to, b)
    ensures Ring(from, Removed(a, k)) && Ring(to, [n] + b) && Apart(from, Removed(a, k), to, [n] + b)
  {
    RemovedFacts(from, a, k);
    ListDel(n, from, a, k);
    AddBeside(n, to, from, Removed(a, k), b);
  }

  /** A new first entry of one ring leaves another one alone. */
  method AddBeside(n: ListHead, to: ListHead, ghost from: ListHead, ghost a: seq<ListHead>, ghost b: seq<ListHead>)
    requires Ring(from, a) && Ring(to, b) && Apart(from, a, to, b) && n !in Members(from, a) && n !in Members(to, b)
    modifies n, Members(to, b)
    ensures Ring(from, a) && Ring(to, [n] + b) && Apart(from, a, to, [n] + b)
  {
    ListAdd(n, to, b);
  }

  /** The four rings of the scheduler and the entries on them. */
  class Rings {
    const run: ListHead
    const wait: ListHead
    const timer: ListHead
    const dead: ListHead
    ghost var runQ: seq<ListHead>
    ghost var waitQ: seq<ListHead>
    ghost var timerQ: seq<ListHead>
    ghost var deadQ: seq<ListHead>

    /** Each is a ring, and no entry is on two of them. */
    ghost predicate Valid()
      reads this, Members(run, runQ), Members(wait, waitQ), Members(timer, timerQ), Members(dead, deadQ)
    {
      && Ring(run, runQ) && Ring(wait, waitQ) && Ring(timer, timerQ) && Ring(dead, deadQ)
      && Apart(run, runQ, wait, waitQ) && Apart(run, runQ, timer, timerQ) && Apart(run, runQ, dead, deadQ)
      && Apart(wait, waitQ, timer, timerQ) && Apart(wait, waitQ, dead, deadQ) && Apart(timer, timerQ, dead, deadQ)
    }

    constructor ()
      ensures Valid() && runQ == [] && waitQ == [] && timerQ == [] && deadQ == []
    {
      run := new ListHead();
      wait := new ListHead();
      timer := new ListHead();
      dead := new ListHead();
      runQ, waitQ, timerQ, deadQ := [], [], [], [];
    }

    /** getCurrentTask: the entry at the tail of the run ring, if there is one. */
    method Current() returns (c: ListHead?)
      requires Valid()
      ensures c == if runQ == [] then null else runQ[|runQ|-1]
    {
      ghost var r := Round(run, runQ);
      assert r[|runQ|+1].prev == r[|runQ|];
      if run.prev == run {
        return null;
      }
      c := run.prev;
    }

    /** sys_yield: the entry at the head of the run ring goes to its tail. */
    method Yield()
      requires Valid() && runQ != []
      modifies this, Members(run, runQ)
      ensures Valid() && runQ == old(runQ)[1..] + [old(runQ)[0]]
      ensures waitQ == old(waitQ) && timerQ == old(timerQ) && deadQ == old(deadQ)
    {
      ghost var q := runQ;
      MoveFirstToTail(run, q);
      runQ := q[1..] + [q[0]];
      assert forall n :: n in runQ ==> n in q;
    }

    /** sys_sleep: the current entry goes to the head of the wait ring. */
    method Sleep()
      requires Valid() && runQ != []
      modifies this, Members(run, runQ), Members(wait, waitQ)
      ensures Valid() && runQ == old(runQ)[..|old(runQ)|-1] && waitQ == [old(runQ)[|old(runQ)|-1]] + old(waitQ)
      ensures timerQ == old(timerQ) && deadQ == old(deadQ)
    {
      hide Ring, Distinct;
      ghost var q, k := runQ, |runQ| - 1;
      var c := Current();
      RingDistinct(run, q);
      RemovedFacts(run, q, k);
      MoveToHead(c, wait, run, q, waitQ, k);
      waitQ, runQ := [c] + waitQ, Removed(q, k);
    }

    /** sys_sleep_timer: to the head of the timer ring. */
    method SleepTimer()
      requires Valid() && runQ != []
      modifies this, Members(run, runQ), Members(timer, timerQ)
      ensures Valid() && runQ == old(runQ)[..|old(runQ)|-1] && timerQ == [old(runQ)[|old(runQ)|-1]] + old(timerQ)
      ensures waitQ == old(waitQ) && deadQ == old(deadQ)
    {
      hide Ring, Distinct;
      ghost var q, k := runQ, |runQ| - 1;
      var c := Current();
      RingDistinct(run, q);
      RemovedFacts(run, q, k);
      MoveToHead(c, timer, run, q, timerQ, k);
      timerQ, runQ := [c] + timerQ, Removed(q, k);
    }

    /** sys_exit: to the head of the terminated ring. */
    method Exit()
      requires Valid() && runQ != []
      modifies this, Members(run, runQ), Members(dead, deadQ)
      ensures Valid() && runQ == old(runQ)[..|old(runQ)|-1] && deadQ == [old(runQ)[|old(runQ)|-1]] + old(deadQ)
      ensures waitQ == old(waitQ) && timerQ == old(timerQ)
    {
      hide Ring, Distinct;
      ghost var q, k := runQ, |runQ| - 1;
      var c := Current();
      RingDistinct(run, q);
      RemovedFacts(run, q, k);
      MoveToHead(c, dead, run, q, deadQ, k);
      deadQ, runQ := [c] + deadQ, Removed(q, k);
    }

    /** wakeup_proc on a sleeper of the wait ring: to the head of the run ring. */
    method Wake(n: ListHead, ghost k: nat)
      requires Valid() && k < |waitQ| && n == waitQ[k]
      modifies this, Members(run, runQ), Members(wait, waitQ)
      ensures Valid() && runQ == [n] + old(runQ) && waitQ == Removed(old(waitQ), k)
      ensures timerQ == old(timerQ) && deadQ == old(deadQ)
    {
      ghost var q := waitQ;
      RemovedFacts(wait, q, k);
      MoveToHead(n, run, wait, q, runQ, k);
      runQ, waitQ := [n] + runQ, Removed(q, k);
    }

    /** wakeup_proc on a sleeper of the timer ring. */
    method WakeTimed(n: ListHead, ghost k: nat)
      requires Valid() && k < |timerQ| && n == timerQ[k]
      modifies this, Members(run, runQ), Members(timer, timerQ)
      ensures Valid() && runQ == [n] + old(runQ) && timerQ == Removed(old(timerQ), k)
      ensures waitQ == old(waitQ) && deadQ == old(deadQ)
    {
      ghost var q := timerQ;
      RemovedFacts(timer, q, k);
      MoveToHead(n, run, timer, q, runQ, k);
      runQ, timerQ := [n] + runQ, Removed(q, k);
    }

    /** cleanupTerminated: the first terminated entry leaves the rings, if there is one. */
    method Cleanup()
      requires Valid()
      modifies this, Members(dead, deadQ)
      ensures Valid() && deadQ == if old(deadQ) == [] then [] else old(deadQ)[1..]
      ensures runQ == old(runQ) && waitQ == old(waitQ) && timerQ == old(timerQ)
    {
      ghost var q := deadQ;
      var none := ListEmpty(dead, q);
      if none {
        return;
      }
      assert Round(dead, q)[0].next == Round(dead, q)[1];
      var n := dead.next;
      RemovedFacts(dead, q, 0);
      ListDel(n, dead, q, 0);
      deadQ := Removed(q, 0);
    }

    /** addToTaskList: a new entry at the head of the run ring. */
    method Add(n: ListHead)
      requires Valid() && n !in {run, wait, timer, dead} && n !in runQ && n !in waitQ && n !in timerQ && n !in deadQ
      modifies this, n, Members(run, runQ)
      ensures Valid() && runQ == [n] + old(runQ)
      ensures waitQ == old(waitQ) && timerQ == old(timerQ) && deadQ == old(deadQ)
    {
      ListAdd(n, run, runQ);
      runQ := [n] + runQ;
    }
  }

  // ---------- the rings and the scheduler's state ----------

  /** The entries on the four rings, in order. */
  datatype Queues = Queues(run: seq<ListHead>, wait: seq<ListHead>, timer: seq<ListHead>, dead: seq<ListHead>)

  /** The list entries of the control blocks of `ts`. */
  ghost function Entries(lister: map<T.Task, ListHead>, ts: seq<T.Task>): seq<ListHead>
    requires forall t :: t in ts ==> t in lister
  {
    seq(|ts|, i requires 0 <= i < |ts| => assert ts[i] in ts; lister[ts[i]])
  }

  /** The rings hold the entries of the tasks that the scheduler's state has on them. */
  ghost predicate Shows(q: Queues, lister: map<T.Task, ListHead>, s: T.Sched) {
    && (forall t :: t in s.run || t in s.wait || t in s.timer || t in s.dead ==> t in lister)
    && q.run == Entries(lister, s.run) && q.wait == Entries(lister, s.wait)
    && q.timer == Entries(lister, s.timer) && q.dead == Entries(lister, s.dead)
  }

  /** What `Rings.Yield` and then `Rings.Cleanup` do is sys_yield. */
  lemma YieldShows(q: Queues, lister: map<T.Task, ListHead>, s: T.Sched)
    requires Shows(q, lister, s) && s.run != [] && (s.dead != [] ==> s.dead[0] in s.pcb)
    ensures q.run != []
    ensures Shows(q.(run := q.run[1..] + [q.run[0]], dead := if q.dead == [] then [] else q.dead[1..]), lister, T.Yielded(s))
  {
    var s' := T.Yielded(s);
    assert forall t :: t in s'.run ==> t in s.run;
    assert forall t :: t in s'.dead ==> t in s.dead;
  }

  /** `Rings.Sleep` is what sys_sleep does before it yields. */
  lemma SleepShows(q: Queues, lister: map<T.Task, ListHead>, s: T.Sched, d: nat)
    requires Shows(q, lister, s) && s.run != [] && T.Current(s) in s.pcb
    ensures q.run != []
    ensures Shows(q.(run := q.run[..|q.run|-1], wait := [q.run[|q.run|-1]] + q.wait), lister, T.Waiting(s, d))
  {
    assert forall t :: t in T.Init(s.run) ==> t in s.run;
  }

  /** `Rings.SleepTimer` is what sys_sleep_timer does before it yields. */
  lemma SleepTimerShows(q: Queues, lister: map<T.Task, ListHead>, s: T.Sched, n: nat)
    requires Shows(q, lister, s) && s.run != [] && T.Current(s) in s.pcb
    ensures q.run != []
    ensures Shows(q.(run := q.run[..|q.run|-1], timer := [q.run[|q.run|-1]] + q.timer), lister, T.Dozing(s, n))
  {
    assert forall t :: t in T.Init(s.run) ==> t in s.run;
  }

  /** `Rings.Exit` is what sys_exit does to the rings of whoever exits. */
  lemma ExitShows(q: Queues, lister: map<T.Task, ListHead>, s: T.Sched)
    requires Shows(q, lister, s) && s.run != [] && s.noproc > 0
    ensures q.run != []
    ensures Shows(q.(run := q.run[..|q.run|-1], dead := [q.run[|q.run|-1]] + q.dead), lister, T.Terminated(s))
  {
    assert forall t :: t in T.Init(s.run) ==> t in s.run;
  }

  /** `Rings.Add` with the entry of a new task is addToTaskList. */
  lemma AddShows(q: Queues, lister: map<T.Task, ListHead>, s: T.Sched, c: T.Task, n: ListHead)
    requires Shows(q, lister, s) && c !in s.run && c !in s.wait && c !in s.timer && c !in s.dead
    ensures Shows(q.(run := [n] + q.run), lister[c := n], s.(run := [c] + s.run))
  {
  }

  /** A run ring and a ring of sleepers. */
  datatype Pair = Pair(run: seq<ListHead>, ring: seq<ListHead>)

  /** The sleepers on `d` among the first `i` of `ts` woken by `Rings.Wake` or
      `Rings.WakeTimed`, the last first. */
  ghost function WakeFrom(p: Pair, ts: seq<T.Task>, pcb: T.Pcbs, d: nat, i: nat): Pair
    requires i <= |ts| && i <= |p.ring|
    decreases i
  {
    if i == 0 then p
    else if ts[i-1] in pcb && pcb[ts[i-1]].waitDesc == d then
      WakeFrom(Pair([p.ring[i-1]] + p.run, Removed(p.ring, i - 1)), ts, pcb, d, i - 1)
    else WakeFrom(p, ts, pcb, d, i - 1)
  }

  lemma {:induction false} PickLast(q: seq<T.Task>, t: T.Task, pcb: T.Pcbs, d: nat, yes: bool)
    ensures T.Pick(q + [t], pcb, d, yes) ==
      T.Pick(q, pcb, d, yes) + if (t in pcb && pcb[t].waitDesc == d) == yes then [t] else []
  {
    if q == [] {
      assert [] + [t] == [t] && [t][1..] == [];
    } else {
      assert (q + [t])[1..] == q[1..] + [t];
      PickLast(q[1..], t, pcb, d, yes);
    }
  }

  lemma {:induction false} WakeFromShows(p: Pair, lister: map<T.Task, ListHead>, ts: seq<T.Task>, pcb: T.Pcbs, d: nat, i: nat)
    requires i <= |ts| && i <= |p.ring| && (forall t :: t in ts ==> t in lister)
    requires p.ring[..i] == Entries(lister, ts[..i])
    ensures var yes, no := T.Pick(ts[..i], pcb, d, true), T.Pick(ts[..i], pcb, d, false);
            && (forall t :: t in yes || t in no ==> t in lister)
            && WakeFrom(p, ts, pcb, d, i) == Pair(Entries(lister, yes) + p.run, Entries(lister, no) + p.ring[i..])
    decreases i
  {
    hide T.Pick, Entries;
    if i == 0 {
      NoEntries(lister, ts, pcb, d);
    } else {
      var t, woken := ts[i-1], ts[i-1] in pcb && pcb[ts[i-1]].waitDesc == d;
      assert ts[..i] == ts[..i-1] + [t];
      PickLast(ts[..i-1], t, pcb, d, true);
      PickLast(ts[..i-1], t, pcb, d, false);
      EntriesLast(lister, ts[..i-1], t);
      assert p.ring[i-1] == p.ring[..i][i-1] && p.ring[..i-1] == p.ring[..i][..i-1];
      var p' := if woken then Pair([p.ring[i-1]] + p.run, Removed(p.ring, i - 1)) else p;
      assert p'.ring[..i-1] == p.ring[..i-1];
      WakeFromShows(p', lister, ts, pcb, d, i - 1);
      EntriesLast(lister, T.Pick(ts[..i-1], pcb, d, woken), t);
      var others := T.Pick(ts[..i-1], pcb, d, !woken);
      assert others + [] == others;
      var kept := Entries(lister, T.Pick(ts[..i-1], pcb, d, woken));
      if woken {
        assert p'.ring[i-1..] == p.ring[i..] && kept + p'.run == (kept + [p.ring[i-1]]) + p.run;
      } else {
        assert kept + p.ring[i-1..] == (kept + [p.ring[i-1]]) + p.ring[i..];
      }
    }
  }

  lemma NoEntries(lister: map<T.Task, ListHead>, ts: seq<T.Task>, pcb: T.Pcbs, d: nat)
    ensures forall yes :: T.Pick(ts[..0], pcb, d, yes) == []
    ensures Entries(lister, []) == []
  {
  }

  lemma EntriesLast(lister: map<T.Task, ListHead>, ts: seq<T.Task>, t: T.Task)
    requires t in lister && forall u :: u in ts ==> u in lister
    ensures Entries(lister, ts + [t]) == Entries(lister, ts) + [lister[t]] && |Entries(lister, ts)| == |ts|
  {
  }

  /** Waking all sleepers on `d` like that is _sys_wakeup on the wait ring. */
  lemma WakeShows(q: Queues, lister: map<T.Task, ListHead>, s: T.Sched, d: nat)
    requires Shows(q, lister, s)
    ensures var p := WakeFrom(Pair(q.run, q.wait), s.wait, s.pcb, d, |s.wait|);
            Shows(q.(run := p.run, wait := p.ring), lister, T.WokenUp(s, d))
  {
    assert s.wait[..|s.wait|] == s.wait && q.wait[..|q.wait|] == q.wait;
    WakeFromShows(Pair(q.run, q.wait), lister, s.wait, s.pcb, d, |s.wait|);
  }

  /** And on the timer ring. */
  lemma WakeTimedShows(q: Queues, lister: map<T.Task, ListHead>, s: T.Sched)
    requires Shows(q, lister, s)
    ensures var p := WakeFrom(Pair(q.run, q.timer), s.timer, s.pcb, T.TIMER_ELAPSED, |s.timer|);
            Shows(q.(run := p.run, timer := p.ring), lister, T.TimedOut(s))
  {
    assert s.timer[..|s.timer|] == s.timer && q.timer[..|q.timer|] == q.timer;
    WakeFromShows(Pair(q.run, q.timer), lister, s.timer, s.pcb, T.TIMER_ELAPSED, |s.timer|);
  }
}
