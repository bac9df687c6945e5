/** proc.c: the two-level process/thread scheduler, as a machine whose steps are the stretches
    of code that run with ptable.lock held. */
module Scheduler {
  const NPROC := 64
  const NTHREAD := 16
  const NCPU := 8

  datatype Status = UNUSED | EMBRYO | SLEEPING | RUNNABLE | RUNNING | ZOMBIE

  datatype Thread = Thread(state: Status, chan: nat)

  datatype Proc = Proc(state: Status, threads: seq<Thread>)

  /** A CPU runs a thread, or is in scheduler(), possibly in the inner loop of process `p`, which
      it enters and leaves with ptable.lock held. */
  datatype Cpu = On(p: nat, t: nat) | Scanning(p: nat) | Idle

  datatype State = State(procs: seq<Proc>, cpus: seq<Cpu>)

  predicate Shape(s: State) {
    && |s.procs| == NPROC && |s.cpus| == NCPU
    && forall p :: 0 <= p < NPROC ==> |s.procs[p].threads| == NTHREAD
  }

  predicate Names(p: nat, t: nat) {
    p < NPROC && t < NTHREAD
  }

  function Th(s: State, p: nat, t: nat): (x: Thread)
    requires Shape(s) && Names(p, t)
  {
    s.procs[p].threads[t]
  }

  /** sleep's test: threads that keep a process from SLEEPING. */
  predicate Busy(st: Status) {
    st == RUNNABLE || st == RUNNING || st == EMBRYO
  }

  function SetThread(s: State, p: nat, t: nat, st: Status): (r: State)
    requires Shape(s) && Names(p, t)
    ensures Shape(r)
  {
    s.(procs := s.procs[p := s.procs[p].(threads := s.procs[p].threads[t := s.procs[p].threads[t].(state := st)])])
  }

  function SetProc(s: State, p: nat, st: Status): (r: State)
    requires Shape(s) && p < NPROC
    ensures Shape(r)
  {
    s.(procs := s.procs[p := s.procs[p].(state := st)])
  }

  function SetCpu(s: State, c: nat, x: Cpu): (r: State)
    requires Shape(s) && c < NCPU
    ensures Shape(r)
  {
    s.(cpus := s.cpus[c := x])
  }

  // ---- wakeup1 ----

  function WokenThread(x: Thread, chan: nat): (r: Thread) {
    if x.state == SLEEPING && x.chan == chan then x.(state := RUNNABLE) else x
  }

  predicate SleepsOn(x: Proc, chan: nat) {
    exists t :: 0 <= t < |x.threads| && x.threads[t].state == SLEEPING && x.threads[t].chan == chan
  }

  function WokenProc(x: Proc, chan: nat): (r: Proc)
    ensures |r.threads| == |x.threads|
  {
    if x.state != SLEEPING && x.state != RUNNABLE && x.state != RUNNING then x
    else Proc(if SleepsOn(x, chan) then RUNNABLE else x.state,
              seq(|x.threads|, t requires 0 <= t < |x.threads| => WokenThread(x.threads[t], chan)))
  }

  function Woken(s: State, chan: nat): (r: State)
    requires Shape(s)
    ensures Shape(r)
  {
    s.(procs := seq(NPROC, p requires 0 <= p < NPROC => WokenProc(s.procs[p], chan)))
  }

  // ---- the steps ----

  /** Another thread of the process is runnable, running or being made. */
  predicate OthersBusy(threads: seq<Thread>, t: nat) {
    exists u :: 0 <= u < |threads| && u != t && Busy(threads[u].state)
  }

  /** The thread leaves its CPU, whose scheduler goes on scanning the same process. */
  function Leave(s: State, c: nat, tst: Status, pst: Status): (r: State)
    requires Shape(s) && c < NCPU && s.cpus[c].On? && Names(s.cpus[c].p, s.cpus[c].t)
    ensures Shape(r)
  {
    var (p, t) := (s.cpus[c].p, s.cpus[c].t);
    SetCpu(SetProc(SetThread(s, p, t, tst), p, pst), c, Scanning(p))
  }

  function SetChan(s: State, p: nat, t: nat, chan: nat): (r: State)
    requires Shape(s) && Names(p, t)
    ensures Shape(r)
  {
    s.(procs := s.procs[p := s.procs[p].(threads := s.procs[p].threads[t := s.procs[p].threads[t].(chan := chan)])])
  }

  function SleepStep(s: State, c: nat, chan: nat): (r: State)
    requires Shape(s) && c < NCPU && s.cpus[c].On? && Names(s.cpus[c].p, s.cpus[c].t)
    ensures Shape(r)
  {
    var (p, t) := (s.cpus[c].p, s.cpus[c].t);
    Leave(SetChan(s, p, t, chan), c, SLEEPING, if OthersBusy(s.procs[p].threads, t) then RUNNABLE else SLEEPING)
  }

  /** exit's first loop: every other thread that is not running becomes a zombie. */
  function Reaped(x: Proc, t: nat): (r: Proc)
    ensures |r.threads| == |x.threads|
  {
    x.(threads := seq(|x.threads|, u requires 0 <= u < |x.threads| =>
         if u != t && (x.threads[u].state == RUNNABLE || x.threads[u].state == SLEEPING)
         then x.threads[u].(state := ZOMBIE) else x.threads[u]))
  }

  /** allzombies: the process is a zombie, or every other thread is unused or a zombie. */
  predicate AllZombies(x: Proc, t: nat) {
    x.state == ZOMBIE
    || forall u :: 0 <= u < |x.threads| && u != t ==> x.threads[u].state == UNUSED || x.threads[u].state == ZOMBIE
  }

  /** wait's cleaning of a finished child. */
  function Cleared(x: Proc): (r: Proc)
    ensures |r.threads| == |x.threads|
  {
    Proc(UNUSED, seq(|x.threads|, u requires 0 <= u < |x.threads| => x.threads[u].(state := UNUSED)))
  }

  function FirstSleeper(threads: seq<Thread>, i: nat): (r: nat)
    requires i <= |threads|
    ensures i <= r <= |threads| && (r < |threads| ==> threads[r].state == SLEEPING)
    decreases |threads| - i
  {
    if i == |threads| || threads[i].state == SLEEPING then i else FirstSleeper(threads, i + 1)
  }

  function KillStep(s: State, q: nat): (r: State)
    requires Shape(s) && q < NPROC
    ensures Shape(r)
  {
    if s.procs[q].state != SLEEPING then s
    else
      var s1 := SetProc(s, q, RUNNABLE);
      var t := FirstSleeper(s.procs[q].threads, 0);
      if t == NTHREAD then s1 else SetThread(s1, q, t, RUNNABLE)
  }

  datatype Event =
    | Enter(c: nat, p: nat)         // scheduler: the process is RUNNABLE
    | Run(c: nat, t: nat)           // scheduler: a RUNNABLE thread of the process being scanned
    | Skip(c: nat)                  // scheduler: the inner loop ends
    | Yield(c: nat)
    | Sleep(c: nat, chan: nat)
    | Wakeup(chan: nat)             // by a thread or an interrupt handler
    | KthreadExit(c: nat)           // kthread_exit up to its release of ttlock
    | KthreadLeave(c: nat)          // the rest of kthread_exit
    | Embryo(c: nat, u: nat)        // allocthread for kthread_create
    | Unembryo(c: nat, u: nat)      // allocthread when kalloc fails
    | Start(c: nat, u: nat)         // the end of kthread_create
    | Join(c: nat, u: nat)          // kthread_join finds a zombie
    | Handoff(c: nat, u: nat)       // kthread_mutex_unlock and kill_threads wake a thread of their process
    | Reap(c: nat, q: nat)          // wait finds a child whose threads are all done
    | Kill(q: nat)
    | ExitKill(c: nat)              // exit's first loop
    | ExitDone(c: nat)              // the end of exit
    | ForkAlloc(c: nat, q: nat)     // allocproc
    | ForkFail(c: nat, q: nat)
    | ForkThread(c: nat, q: nat)    // the child's thread becomes RUNNABLE
    | ForkProc(c: nat, q: nat)      // the child becomes RUNNABLE

  /** The thread on CPU `c` is executing and has not begun to exit. */
  predicate Executes(s: State, c: nat)
    requires Shape(s)
  {
    c < NCPU && s.cpus[c].On? && Names(s.cpus[c].p, s.cpus[c].t) && Th(s, s.cpus[c].p, s.cpus[c].t).state == RUNNING
  }

  predicate OffCpu(s: State, p: nat, t: nat)
    requires Shape(s)
  {
    forall c :: 0 <= c < NCPU ==> s.cpus[c] != On(p, t)
  }

  /** The thread is the one on CPU `c` or another of its process in state `st`. */
  predicate Sibling(s: State, c: nat, u: nat, st: Status)
    requires Shape(s)
  {
    Executes(s, c) && u < NTHREAD && u != s.cpus[c].t && Th(s, s.cpus[c].p, u).state == st
  }

  /** No CPU is in the inner loop, so ptable.lock can be had. */
  predicate LockFree(s: State)
    requires Shape(s)
  {
    forall c :: 0 <= c < NCPU ==> !s.cpus[c].Scanning?
  }

  /** The inner loop already holds the lock; allocproc, allocthread's failure and fork's failure
      write without it. */
  predicate NeedsLock(e: Event) {
    !(e.Run? || e.Skip? || e.Unembryo? || e.ForkAlloc? || e.ForkFail?)
  }

  predicate AllOff(s: State, p: nat)
    requires Shape(s)
  {
    forall c :: 0 <= c < NCPU && s.cpus[c].On? ==> s.cpus[c].p != p
  }

  predicate Enabled(s: State, e: Event) {
    && Shape(s)
    && (NeedsLock(e) ==> LockFree(s))
    && match e
       case Enter(c, p) => c < NCPU && s.cpus[c] == Idle && p < NPROC && s.procs[p].state == RUNNABLE
       case Run(c, t) => c < NCPU && s.cpus[c].Scanning? && Names(s.cpus[c].p, t) && Th(s, s.cpus[c].p, t).state == RUNNABLE
       case Skip(c) => c < NCPU && s.cpus[c].Scanning?
       case Yield(c) => Executes(s, c)
       case Sleep(c, chan) => Executes(s, c)
       case Wakeup(chan) => true
       case KthreadExit(c) => Executes(s, c) && !AllZombies(s.procs[s.cpus[c].p], s.cpus[c].t)
       case KthreadLeave(c) => c < NCPU && s.cpus[c].On? && Names(s.cpus[c].p, s.cpus[c].t)
                               && Th(s, s.cpus[c].p, s.cpus[c].t).state == ZOMBIE
       case Embryo(c, u) => Sibling(s, c, u, UNUSED)
       case Unembryo(c, u) => Sibling(s, c, u, EMBRYO)
       case Start(c, u) => Sibling(s, c, u, EMBRYO)
       case Join(c, u) => Sibling(s, c, u, ZOMBIE) && OffCpu(s, s.cpus[c].p, u)
       case Handoff(c, u) => Sibling(s, c, u, SLEEPING)
       case Reap(c, q) => Executes(s, c) && q < NPROC && s.procs[q].state != UNUSED && s.procs[q].state != EMBRYO
                          && AllZombies(s.procs[q], NTHREAD) && AllOff(s, q)
       case Kill(q) => q < NPROC
       case ExitKill(c) => Executes(s, c)
       case ExitDone(c) => Executes(s, c)
       case ForkAlloc(c, q) => Executes(s, c) && q < NPROC && s.procs[q].state == UNUSED && Th(s, q, 0).state == UNUSED
       case ForkFail(c, q) => Executes(s, c) && q < NPROC && s.procs[q].state == EMBRYO && Th(s, q, 0).state == EMBRYO
       case ForkThread(c, q) => Executes(s, c) && q < NPROC && s.procs[q].state == EMBRYO && Th(s, q, 0).state == EMBRYO
       case ForkProc(c, q) => Executes(s, c) && q < NPROC && s.procs[q].state == EMBRYO && Th(s, q, 0).state == RUNNABLE
  }

  /** The address of a thread structure, used as a channel by kthread_exit and kthread_join. */
  function ThreadChan(p: nat, t: nat): (r: nat) {
    NTHREAD * p + t
  }

  function Step(s: State, e: Event): (r: State)
    requires Enabled(s, e)
    ensures Shape(r)
  {
    match e
    case Enter(c, p) => SetCpu(s, c, Scanning(p))
    case Run(c, t) => var p := s.cpus[c].p; SetCpu(SetThread(SetProc(s, p, RUNNING), p, t, RUNNING), c, On(p, t))
    case Skip(c) => SetCpu(s, c, Idle)
    case Yield(c) => Leave(s, c, RUNNABLE, RUNNABLE)
    case Sleep(c, chan) => SleepStep(s, c, chan)
    case Wakeup(chan) => Woken(s, chan)
    case KthreadExit(c) => SetThread(Woken(s, ThreadChan(s.cpus[c].p, s.cpus[c].t)), s.cpus[c].p, s.cpus[c].t, ZOMBIE)
    case KthreadLeave(c) => Leave(s, c, ZOMBIE, RUNNABLE)
    case Embryo(c, u) => SetThread(s, s.cpus[c].p, u, EMBRYO)
    case Unembryo(c, u) => SetThread(s, s.cpus[c].p, u, UNUSED)
    case Start(c, u) => SetThread(s, s.cpus[c].p, u, RUNNABLE)
    case Join(c, u) => SetThread(s, s.cpus[c].p, u, UNUSED)
    case Handoff(c, u) => SetThread(s, s.cpus[c].p, u, RUNNABLE)
    case Reap(c, q) => s.(procs := s.procs[q := Cleared(s.procs[q])])
    case Kill(q) => KillStep(s, q)
    case ExitKill(c) => s.(procs := s.procs[s.cpus[c].p := Reaped(s.procs[s.cpus[c].p], s.cpus[c].t)])
    case ExitDone(c) => Leave(s, c, ZOMBIE, ZOMBIE)
    case ForkAlloc(c, q) => SetThread(SetProc(s, q, EMBRYO), q, 0, EMBRYO)
    case ForkFail(c, q) => SetThread(SetProc(s, q, UNUSED), q, 0, UNUSED)
    case ForkThread(c, q) => SetThread(s, q, 0, RUNNABLE)
    case ForkProc(c, q) => SetProc(s, q, RUNNABLE)
  }

  // ---- the invariant ----

  /** The slot is in use and its fork has finished. */
  predicate Made(st: Status) {
    st != UNUSED && st != EMBRYO
  }

  ghost predicate CpuOk(s: State, c: nat)
    requires Shape(s) && c < NCPU
  {
    && (s.cpus[c].On? ==> Names(s.cpus[c].p, s.cpus[c].t)
                          && (Th(s, s.cpus[c].p, s.cpus[c].t).state == RUNNING || Th(s, s.cpus[c].p, s.cpus[c].t).state == ZOMBIE))
    && (s.cpus[c].Scanning? ==> s.cpus[c].p < NPROC && Made(s.procs[s.cpus[c].p].state))
  }

  ghost predicate Alone(s: State, c: nat, d: nat)
    requires Shape(s) && c < NCPU && d < NCPU
  {
    && (s.cpus[c].On? && s.cpus[d] == s.cpus[c] ==> d == c)
    && (s.cpus[c].Scanning? && s.cpus[d].Scanning? ==> d == c)
  }

  /** Some CPU runs a thread of the process. */
  ghost predicate OnSomeCpu(s: State, p: nat)
    requires Shape(s)
  {
    exists c :: 0 <= c < NCPU && s.cpus[c].On? && s.cpus[c].p == p
  }

  ghost predicate ProcOk(s: State, p: nat)
    requires Shape(s) && p < NPROC
  {
    && (s.procs[p].state == RUNNING ==> OnSomeCpu(s, p))
    && (s.procs[p].state == SLEEPING ==> forall t :: 0 <= t < NTHREAD ==> !Busy(s.procs[p].threads[t].state))
    && (s.procs[p].state == UNUSED ==> forall t :: 0 <= t < NTHREAD ==> s.procs[p].threads[t].state == UNUSED)
    && (s.procs[p].state == EMBRYO ==>
          && (s.procs[p].threads[0].state == EMBRYO || s.procs[p].threads[0].state == RUNNABLE)
          && forall t :: 0 < t < NTHREAD ==> s.procs[p].threads[t].state == UNUSED)
  }

  ghost predicate ThreadOk(s: State, p: nat, t: nat)
    requires Shape(s) && Names(p, t)
  {
    Th(s, p, t).state == RUNNING ==> !OffCpu(s, p, t)
  }

  ghost predicate Inv(s: State) {
    && Shape(s)
    && (forall c: nat :: c < NCPU ==> CpuOk(s, c))
    && (forall c: nat, d: nat :: c < NCPU && d < NCPU ==> Alone(s, c, d))
    && (forall p: nat :: p < NPROC ==> ProcOk(s, p))
    && (forall p: nat, t: nat :: Names(p, t) ==> ThreadOk(s, p, t))
  }

  // ---- every step keeps the invariant ----

  /** Steps that move no thread on or off a CPU and change only process `p`. */
  ghost predicate OnlyProc(s: State, s': State, p: nat) {
    && Shape(s) && Shape(s') && s'.cpus == s.cpus
    && forall q :: 0 <= q < NPROC && q != p ==> s'.procs[q] == s.procs[q]
  }

  /** A thread may be put in state `st` by a step of its own process, or asleep ones woken. */
  lemma OneProcInv(s: State, s': State, p: nat)
    requires Inv(s) && OnlyProc(s, s', p) && p < NPROC && ProcOk(s', p)
    requires forall t :: 0 <= t < NTHREAD ==> Th(s', p, t).state == RUNNING ==> Th(s, p, t).state == RUNNING
    requires forall t :: 0 <= t < NTHREAD && !OffCpu(s, p, t) ==>
      Th(s', p, t).state == Th(s, p, t).state || Th(s', p, t).state == ZOMBIE
    requires Made(s'.procs[p].state) || !Made(s.procs[p].state) || LockFree(s)
    ensures Inv(s')
  {
    forall c: nat | c < NCPU ensures CpuOk(s', c) {
      assert CpuOk(s, c);
    }
    forall c: nat, d: nat | c < NCPU && d < NCPU ensures Alone(s', c, d) {
      assert Alone(s, c, d);
    }
    forall q: nat | q < NPROC ensures ProcOk(s', q) {
      assert ProcOk(s, q);
    }
    forall q: nat, t: nat | Names(q, t) ensures ThreadOk(s', q, t) {
      assert ThreadOk(s, q, t);
    }
  }

  lemma CpuStepInv(s: State, c: nat, x: Cpu)
    requires Inv(s) && c < NCPU && !s.cpus[c].On? && !x.On?
    requires x.Scanning? ==> x.p < NPROC && Made(s.procs[x.p].state) && LockFree(s)
    ensures Inv(SetCpu(s, c, x))
  {
    var s' := SetCpu(s, c, x);
    forall d: nat | d < NCPU ensures CpuOk(s', d) {
      assert CpuOk(s, d);
    }
    forall a: nat, b: nat | a < NCPU && b < NCPU ensures Alone(s', a, b) {
      assert Alone(s, a, b);
    }
    forall q: nat | q < NPROC ensures ProcOk(s', q) {
      assert ProcOk(s, q);
      if s.procs[q].state == RUNNING {
        var d :| 0 <= d < NCPU && s.cpus[d].On? && s.cpus[d].p == q;
        assert s'.cpus[d] == s.cpus[d];
      }
    }
    forall q: nat, t: nat | Names(q, t) ensures ThreadOk(s', q, t) {
      assert ThreadOk(s, q, t);
      if Th(s, q, t).state == RUNNING {
        var d :| 0 <= d < NCPU && s.cpus[d] == On(q, t);
        assert s'.cpus[d] == s.cpus[d];
      }
    }
  }

  lemma RunInv(s: State, c: nat, t: nat)
    requires Inv(s) && Enabled(s, Run(c, t))
    ensures Inv(Step(s, Run(c, t)))
  {
    var s', p := Step(s, Run(c, t)), s.cpus[c].p;
    forall d: nat | d < NCPU ensures CpuOk(s', d) {
      assert CpuOk(s, d);
    }
    forall a: nat, b: nat | a < NCPU && b < NCPU ensures Alone(s', a, b) {
      assert Alone(s, a, b) && CpuOk(s, a) && CpuOk(s, b);
    }
    forall q: nat | q < NPROC ensures ProcOk(s', q) {
      assert ProcOk(s, q) && s'.cpus[c] == On(p, t);
      if q != p && s.procs[q].state == RUNNING {
        var d :| 0 <= d < NCPU && s.cpus[d].On? && s.cpus[d].p == q;
        assert s'.cpus[d] == s.cpus[d];
      }
    }
    forall q: nat, u: nat | Names(q, u) ensures ThreadOk(s', q, u) {
      assert ThreadOk(s, q, u) && s'.cpus[c] == On(p, t);
      if Th(s, q, u).state == RUNNING {
        var d :| 0 <= d < NCPU && s.cpus[d] == On(q, u);
        assert s'.cpus[d] == s.cpus[d];
      }
    }
  }

  lemma LeaveInv(s: State, c: nat, tst: Status, pst: Status)
    requires Inv(s) && c < NCPU && s.cpus[c].On? && CpuOk(s, c)
    requires tst != RUNNING && pst != RUNNING && Made(pst) && LockFree(s)
    requires pst == SLEEPING ==> !Busy(tst) && !OthersBusy(s.procs[s.cpus[c].p].threads, s.cpus[c].t)
    ensures Inv(Leave(s, c, tst, pst))
  {
    var s', p, t := Leave(s, c, tst, pst), s.cpus[c].p, s.cpus[c].t;
    forall d: nat | d < NCPU ensures CpuOk(s', d) {
      assert CpuOk(s, d) && Alone(s, c, d);
    }
    forall a: nat, b: nat | a < NCPU && b < NCPU ensures Alone(s', a, b) {
      assert Alone(s, a, b);
    }
    forall q: nat | q < NPROC ensures ProcOk(s', q) {
      assert ProcOk(s, q);
      if q != p && s.procs[q].state == RUNNING {
        var d :| 0 <= d < NCPU && s.cpus[d].On? && s.cpus[d].p == q;
        assert s'.cpus[d] == s.cpus[d];
      }
    }
    forall q: nat, u: nat | Names(q, u) ensures ThreadOk(s', q, u) {
      assert ThreadOk(s, q, u);
      if Th(s, q, u).state == RUNNING && (q, u) != (p, t) {
        var d :| 0 <= d < NCPU && s.cpus[d] == On(q, u);
        assert s'.cpus[d] == s.cpus[d];
      }
    }
  }

  lemma SleepInv(s: State, c: nat, chan: nat)
    requires Inv(s) && Executes(s, c) && LockFree(s)
    ensures Inv(SleepStep(s, c, chan))
  {
    var p, t := s.cpus[c].p, s.cpus[c].t;
    var s1 := SetChan(s, p, t, chan);
    assert ProcOk(s1, p) by {
      assert ProcOk(s, p);
    }
    OneProcInv(s, s1, p);
    assert CpuOk(s1, c);
    LeaveInv(s1, c, SLEEPING, if OthersBusy(s.procs[p].threads, t) then RUNNABLE else SLEEPING);
  }

  lemma WokenInv(s: State, chan: nat)
    requires Inv(s)
    ensures Inv(Woken(s, chan))
    ensures forall p: nat, t: nat :: Names(p, t) && Th(s, p, t).state != SLEEPING ==> Th(Woken(s, chan), p, t) == Th(s, p, t)
  {
    var s' := Woken(s, chan);
    forall c: nat | c < NCPU ensures CpuOk(s', c) {
      assert CpuOk(s, c);
    }
    forall c: nat, d: nat | c < NCPU && d < NCPU ensures Alone(s', c, d) {
      assert Alone(s, c, d);
    }
    forall q: nat | q < NPROC ensures ProcOk(s', q) {
      assert ProcOk(s, q);
    }
    forall q: nat, t: nat | Names(q, t) ensures ThreadOk(s', q, t) {
      assert ThreadOk(s, q, t);
    }
  }

  /** A step of a thread of process `p` on another thread of it, which is not on a CPU. */
  lemma SiblingInv(s: State, c: nat, u: nat, st: Status, st': Status)
    requires Inv(s) && Sibling(s, c, u, st) && st != RUNNING && st' != RUNNING
    requires st == ZOMBIE ==> OffCpu(s, s.cpus[c].p, u)
    ensures Made(s.procs[s.cpus[c].p].state)
    ensures Inv(SetThread(s, s.cpus[c].p, u, st'))
  {
    var p := s.cpus[c].p;
    var s' := SetThread(s, p, u, st');
    assert ProcOk(s, p) && ThreadOk(s, p, u);
    assert Busy(s.procs[p].threads[s.cpus[c].t].state);
    forall t | 0 <= t < NTHREAD && !OffCpu(s, p, t) ensures Th(s', p, t).state == Th(s, p, t).state {
      var d :| 0 <= d < NCPU && s.cpus[d] == On(p, t);
      assert CpuOk(s, d);
    }
    OneProcInv(s, s', p);
  }

  lemma KthreadExitInv(s: State, c: nat)
    requires Inv(s) && Enabled(s, KthreadExit(c))
    ensures Inv(Step(s, KthreadExit(c)))
  {
    var p, t := s.cpus[c].p, s.cpus[c].t;
    var s1 := Woken(s, ThreadChan(p, t));
    WokenInv(s, ThreadChan(p, t));
    assert Th(s1, p, t) == Th(s, p, t);
    assert ProcOk(s1, p) && Busy(s1.procs[p].threads[t].state);
    OneProcInv(s1, SetThread(s1, p, t, ZOMBIE), p);
  }

  lemma ExitKillInv(s: State, c: nat)
    requires Inv(s) && Enabled(s, ExitKill(c))
    ensures Inv(Step(s, ExitKill(c)))
  {
    var p := s.cpus[c].p;
    assert ProcOk(s, p) && Busy(s.procs[p].threads[s.cpus[c].t].state);
    OneProcInv(s, Step(s, ExitKill(c)), p);
  }

  lemma KillInv(s: State, q: nat)
    requires Inv(s) && q < NPROC
    ensures Inv(KillStep(s, q))
  {
    assert ProcOk(s, q);
    forall t | 0 <= t < NTHREAD && !OffCpu(s, q, t) ensures Th(s, q, t).state != SLEEPING {
      var d :| 0 <= d < NCPU && s.cpus[d] == On(q, t);
      assert CpuOk(s, d);
    }
    OneProcInv(s, KillStep(s, q), q);
  }

  /** A finished child is off every CPU, so its slot can be cleared. */
  lemma ReapInv(s: State, c: nat, q: nat)
    requires Inv(s) && Enabled(s, Reap(c, q))
    ensures Inv(Step(s, Reap(c, q)))
  {
    forall t | 0 <= t < NTHREAD ensures OffCpu(s, q, t) { }
    OneProcInv(s, Step(s, Reap(c, q)), q);
  }

  lemma ForkStepInv(s: State, e: Event)
    requires Inv(s) && Enabled(s, e) && (e.ForkAlloc? || e.ForkFail? || e.ForkThread? || e.ForkProc?)
    ensures Inv(Step(s, e))
  {
    assert ProcOk(s, e.q);
    forall t | 0 <= t < NTHREAD && !OffCpu(s, e.q, t) ensures Th(s, e.q, t).state == RUNNING || Th(s, e.q, t).state == ZOMBIE {
      var d :| 0 <= d < NCPU && s.cpus[d] == On(e.q, t);
      assert CpuOk(s, d);
    }
    OneProcInv(s, Step(s, e), e.q);
  }

  lemma StepInv(s: State, e: Event)
    requires Inv(s) && Enabled(s, e)
    ensures Inv(Step(s, e))
  {
    match e
    case Enter(c, p) => CpuStepInv(s, c, Scanning(p));
    case Skip(c) => CpuStepInv(s, c, Idle);
    case Run(c, t) => RunInv(s, c, t);
    case Yield(c) => LeaveInv(s, c, RUNNABLE, RUNNABLE);
    case Sleep(c, chan) => SleepInv(s, c, chan);
    case Wakeup(chan) => WokenInv(s, chan);
    case KthreadExit(c) => KthreadExitInv(s, c);
    case KthreadLeave(c) => LeaveInv(s, c, ZOMBIE, RUNNABLE);
    case Embryo(c, u) => SiblingInv(s, c, u, UNUSED, EMBRYO);
    case Unembryo(c, u) => SiblingInv(s, c, u, EMBRYO, UNUSED);
    case Start(c, u) => SiblingInv(s, c, u, EMBRYO, RUNNABLE);
    case Join(c, u) => SiblingInv(s, c, u, ZOMBIE, UNUSED);
    case Handoff(c, u) => SiblingInv(s, c, u, SLEEPING, RUNNABLE);
    case Reap(c, q) => ReapInv(s, c, q);
    case Kill(q) => KillInv(s, q);
    case ExitKill(c) => ExitKillInv(s, c);
    case ExitDone(c) => LeaveInv(s, c, ZOMBIE, ZOMBIE);
    case _ => ForkStepInv(s, e);
  }

  // ---- whole runs ----

  predicate StepAt(ss: seq<State>, es: seq<Event>, i: nat)
    requires i < |es| && i + 1 < |ss|
  {
    Enabled(ss[i], es[i]) && ss[i + 1] == Step(ss[i], es[i])
  }

  predicate Trace(ss: seq<State>, es: seq<Event>) {
    |ss| == |es| + 1 && forall i :: 0 <= i < |es| ==> StepAt(ss, es, i)
  }

  /** After userinit: one process with one runnable thread, every CPU in the scheduler. */
  ghost predicate Init(s: State) {
    && Shape(s)
    && s.procs[0].state == RUNNABLE && s.procs[0].threads[0].state == RUNNABLE
    && (forall p: nat, t: nat :: Names(p, t) && (p, t) != (0, 0) ==> Th(s, p, t).state == UNUSED)
    && (forall p :: 0 < p < NPROC ==> s.procs[p].state == UNUSED)
    && (forall c :: 0 <= c < NCPU ==> s.cpus[c] == Idle)
  }

  lemma Boot() returns (s: State)
    ensures Init(s)
  {
    s := State(seq(NPROC, p => Proc(if p == 0 then RUNNABLE else UNUSED,
                                    seq(NTHREAD, t => Thread(if p == 0 && t == 0 then RUNNABLE else UNUSED, 0)))),
               seq(NCPU, c => Idle));
  }

  lemma InitInv(s: State)
    requires Init(s)
    ensures Inv(s)
  {
    forall p: nat | p < NPROC ensures ProcOk(s, p) {
      forall t: nat | t < NTHREAD && p > 0 ensures s.procs[p].threads[t].state == UNUSED {
        assert Th(s, p, t).state == UNUSED;
      }
    }
  }

  lemma {:induction false} RunsInv(ss: seq<State>, es: seq<Event>, k: nat)
    requires Trace(ss, es) && Init(ss[0]) && k < |ss|
    ensures Inv(ss[k])
  {
    hide Inv, Step, Enabled;
    if k == 0 {
      InitInv(ss[0]);
    } else {
      RunsInv(ss, es, k - 1);
      assert StepAt(ss, es, k - 1);
      StepInv(ss[k - 1], es[k - 1]);
    }
  }

  /** In every reachable state a SLEEPING process has no runnable, running or embryo thread, and
      a RUNNING process has a thread on some CPU. */
  lemma ProcessStates(ss: seq<State>, es: seq<Event>, k: nat, p: nat)
    requires Trace(ss, es) && Init(ss[0]) && k < |ss| && p < NPROC
    ensures Shape(ss[k])
    ensures ss[k].procs[p].state == SLEEPING ==> forall t :: 0 <= t < NTHREAD ==> !Busy(ss[k].procs[p].threads[t].state)
    ensures ss[k].procs[p].state == RUNNING ==> OnSomeCpu(ss[k], p)
  {
    RunsInv(ss, es, k);
    assert ProcOk(ss[k], p);
  }

  /** In every reachable state a thread is RUNNING exactly when it is on a CPU and not exiting,
      and it is on at most one. */
  lemma RunningOnOneCpu(ss: seq<State>, es: seq<Event>, k: nat, p: nat, t: nat, c: nat, d: nat)
    requires Trace(ss, es) && Init(ss[0]) && k < |ss| && Names(p, t) && c < NCPU && d < NCPU
    ensures Shape(ss[k])
    ensures Th(ss[k], p, t).state == RUNNING <==> !OffCpu(ss[k], p, t) && Th(ss[k], p, t).state != ZOMBIE
    ensures ss[k].cpus[c] == On(p, t) == ss[k].cpus[d] ==> c == d
  {
    RunsInv(ss, es, k);
    assert ThreadOk(ss[k], p, t) && Alone(ss[k], c, d);
    if !OffCpu(ss[k], p, t) {
      var x :| 0 <= x < NCPU && ss[k].cpus[x] == On(p, t);
      assert CpuOk(ss[k], x);
    }
  }

  /** The event takes a thread of process `p` off its CPU. */
  predicate Leaves(s: State, e: Event, p: nat)
    requires Enabled(s, e)
  {
    (e.Yield? || e.Sleep? || e.KthreadLeave?) && s.cpus[e.c].p == p
  }

  /** A runnable thread is never hidden for good by the test of p->state: its process is RUNNABLE,
      or it is RUNNING with a thread on some CPU, and as soon as any thread of the process leaves
      its CPU the process is RUNNABLE. Otherwise the process is one that exit has ended, or it is
      EMBRYO and the thread is the first one of a fork under way. */
  lemma NotHidden(ss: seq<State>, es: seq<Event>, k: nat, p: nat, t: nat)
    requires Trace(ss, es) && Init(ss[0]) && k < |es| && Names(p, t)
    ensures Enabled(ss[k], es[k]) && ss[k + 1] == Step(ss[k], es[k])
    ensures Th(ss[k], p, t).state == RUNNABLE ==>
              match ss[k].procs[p].state
              case RUNNABLE | ZOMBIE => true
              case RUNNING => OnSomeCpu(ss[k], p)
              case EMBRYO => t == 0
              case SLEEPING | UNUSED => false
    ensures Th(ss[k], p, t).state == RUNNABLE && Leaves(ss[k], es[k], p) ==>
              ss[k + 1].procs[p].state == RUNNABLE && Th(ss[k + 1], p, t).state == RUNNABLE
  {
    RunsInv(ss, es, k);
    assert ProcOk(ss[k], p);
    assert StepAt(ss, es, k);
    if Th(ss[k], p, t).state == RUNNABLE && Leaves(ss[k], es[k], p) {
      var (s, e) := (ss[k], es[k]);
      assert t != s.cpus[e.c].t;
      assert Busy(s.procs[p].threads[t].state);
    }
  }

  /** wakeup1 skips processes that are UNUSED, EMBRYO or ZOMBIE, and yet reaches every thread that
      sleeps on the channel, except one whose process exit has already ended. */
  lemma FilterPassesSleepers(ss: seq<State>, es: seq<Event>, k: nat, p: nat, t: nat)
    requires Trace(ss, es) && Init(ss[0]) && k < |es| && Names(p, t) && es[k].Wakeup?
    ensures Enabled(ss[k], es[k]) && ss[k + 1] == Step(ss[k], es[k])
    ensures Th(ss[k], p, t) == Thread(SLEEPING, es[k].chan) && ss[k].procs[p].state != ZOMBIE ==>
              Th(ss[k + 1], p, t).state == RUNNABLE && ss[k + 1].procs[p].state == RUNNABLE
    ensures Th(ss[k], p, t) != Thread(SLEEPING, es[k].chan) ==> Th(ss[k + 1], p, t) == Th(ss[k], p, t)
  {
    RunsInv(ss, es, k);
    assert ProcOk(ss[k], p);
    assert StepAt(ss, es, k);
  }

  // ---- the code ----

  class ProcTable {
    var procs: seq<Proc>

    ghost predicate Valid()
      reads this
    {
      |procs| == NPROC && forall p :: 0 <= p < NPROC ==> |procs[p].threads| == NTHREAD
    }

    /** wakeup1's inner loop. */
    static method WakeThreads(x: Proc, chan: nat) returns (r: Proc)
      requires x.state == SLEEPING || x.state == RUNNABLE || x.state == RUNNING
      ensures r == WokenProc(x, chan)
    {
      r := x;
      var t := 0;
      while t < |x.threads|
        invariant 0 <= t <= |x.threads| == |r.threads|
        invariant forall u :: 0 <= u < t ==> r.threads[u] == WokenThread(x.threads[u], chan)
        invariant forall u :: t <= u < |x.threads| ==> r.threads[u] == x.threads[u]
        invariant r.state == if SleepsOn(x.(threads := x.threads[..t]), chan) then RUNNABLE else x.state
      {
        ghost var before := x.(threads := x.threads[..t]);
        ghost var after := x.(threads := x.threads[..t + 1]);
        assert forall u :: 0 <= u < t ==> after.threads[u] == before.threads[u];
        assert after.threads[t] == x.threads[t];
        if SleepsOn(before, chan) {
          ghost var u :| 0 <= u < t && before.threads[u].state == SLEEPING && before.threads[u].chan == chan;
          assert after.threads[u] == before.threads[u];
        }
        if r.threads[t].state == SLEEPING && r.threads[t].chan == chan {
          r := r.(state := RUNNABLE);
          r := r.(threads := r.threads[t := r.threads[t].(state := RUNNABLE)]);
        }
        t := t + 1;
      }
      assert x.threads[..|x.threads|] == x.threads;
    }

    /** wakeup1: both loops over the table. */
    method Wakeup1(chan: nat)
      requires Valid()
      modifies this
      ensures Valid() && forall p :: 0 <= p < NPROC ==> procs[p] == WokenProc(old(procs)[p], chan)
    {
      var p := 0;
      while p < NPROC
        invariant 0 <= p <= NPROC && |procs| == NPROC
        invariant forall q :: 0 <= q < p ==> procs[q] == WokenProc(old(procs)[q], chan)
        invariant forall q :: p <= q < NPROC ==> procs[q] == old(procs)[q]
      {
        if procs[p].state == SLEEPING || procs[p].state == RUNNABLE || procs[p].state == RUNNING {
          var x := WakeThreads(procs[p], chan);
          procs := procs[p := x];
        }
        p := p + 1;
      }
    }

    /** sleep's loop: whether another thread of the process is busy. */
    static method AnyBusy(x: Proc, t: nat) returns (busy: bool)
      ensures busy == OthersBusy(x.threads, t)
    {
      var u := 0;
      while u < |x.threads|
        invariant 0 <= u <= |x.threads|
        invariant forall v :: 0 <= v < u && v != t ==> !Busy(x.threads[v].state)
      {
        if u != t && (x.threads[u].state == RUNNABLE || x.threads[u].state == RUNNING || x.threads[u].state == EMBRYO) {
          return true;
        }
        u := u + 1;
      }
      return false;
    }
  }
}
