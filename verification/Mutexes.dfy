/** proc.c:881-1087: kernel mutexes with direct handoff, as a machine whose steps are the
    stretches of code between acquire and release of mtable.lock and ptable.lock. */
module Mutexes {
  const NPROC := 64
  const NTHREAD := 16
  const MAX_MUTEXES := 64

  /** `struct kthread_mutex`; `tid` is -1 when nobody holds it. */
  datatype Mutex = Mutex(alloc: bool, locked: bool, tid: int)

  datatype Slot = Unused | Live | Zombie

  /** `struct thread`: `blocked` and `chan` as in the source (-1 for a null channel, otherwise a
      mutex number), `asleep` for state SLEEPING inside kthread_mutex_lock, `wait` the mutex whose
      lock call is in progress, and `held` the mutexes whose lock calls have returned 0 without a
      later unlock: what the program believes. */
  datatype Thread = Thread(slot: Slot, blocked: bool, asleep: bool, chan: int, wait: int, held: set<nat>)

  datatype Proc = Proc(used: bool, mid: seq<bool>, threads: seq<Thread>)

  datatype State = State(mutexes: seq<Mutex>, procs: seq<Proc>, panicked: bool)

  /** The state after a step and the value the call returns. */
  datatype Out = Out(s: State, r: int)

  // ---- access ----

  predicate Shape(s: State) {
    && |s.mutexes| == MAX_MUTEXES && |s.procs| == NPROC
    && forall p :: 0 <= p < NPROC ==> |s.procs[p].mid| == MAX_MUTEXES && |s.procs[p].threads| == NTHREAD
  }

  predicate Names(p: nat, t: nat) {
    p < NPROC && t < NTHREAD
  }

  function Th(s: State, p: nat, t: nat): (x: Thread)
    requires Shape(s) && Names(p, t)
  {
    s.procs[p].threads[t]
  }

  predicate Registered(s: State, p: nat, m: nat)
    requires Shape(s) && p < NPROC && m < MAX_MUTEXES
  {
    s.procs[p].mid[m]
  }

  function PutThread(s: State, p: nat, t: nat, x: Thread): (r: State)
    requires Shape(s) && Names(p, t)
    ensures Shape(r)
  {
    s.(procs := s.procs[p := s.procs[p].(threads := s.procs[p].threads[t := x])])
  }

  function PutMutex(s: State, m: nat, x: Mutex): (r: State)
    requires Shape(s) && m < MAX_MUTEXES
    ensures Shape(r)
  {
    s.(mutexes := s.mutexes[m := x])
  }

  function Register(s: State, p: nat, m: nat, b: bool): (r: State)
    requires Shape(s) && p < NPROC && m < MAX_MUTEXES
    ensures Shape(r)
  {
    s.(procs := s.procs[p := s.procs[p].(mid := s.procs[p].mid[m := b])])
  }

  // ---- the operations ----

  const NEW_THREAD := Thread(Live, false, false, -1, -1, {})
  const NO_THREAD := Thread(Unused, false, false, -1, -1, {})

  /** The first mutex from `i` on that is not allocated. */
  function FirstFree(ms: seq<Mutex>, i: nat): (r: nat)
    requires i <= |ms|
    ensures i <= r <= |ms| && (r < |ms| ==> !ms[r].alloc) && forall k :: i <= k < r ==> ms[k].alloc
    decreases |ms| - i
  {
    if i == |ms| || !ms[i].alloc then i else FirstFree(ms, i + 1)
  }

  function AllocStep(s: State, p: nat): (r: Out)
    requires Shape(s) && p < NPROC
    ensures Shape(r.s)
  {
    var i := FirstFree(s.mutexes, 0);
    if i == MAX_MUTEXES then Out(s, -1)
    else Out(Register(PutMutex(s, i, Mutex(true, false, -1)), p, i, true), i)
  }

  /** What every call checks first: the id is valid, allocated, and registered to the process. */
  predicate Usable(s: State, p: nat, m: int)
    requires Shape(s) && p < NPROC
  {
    0 <= m < MAX_MUTEXES && s.mutexes[m].alloc && Registered(s, p, m)
  }

  function DeallocStep(s: State, p: nat, m: int): (r: Out)
    requires Shape(s) && p < NPROC
    ensures Shape(r.s)
  {
    if !Usable(s, p, m) || s.mutexes[m].locked then Out(s, -1)
    else Out(Register(PutMutex(s, m, Mutex(false, false, -1)), p, m, false), 0)
  }

  function Acquired(s: State, p: nat, t: nat, m: nat): (r: Out)
    requires Shape(s) && Names(p, t) && m < MAX_MUTEXES
    ensures Shape(r.s)
  {
    var x := Th(s, p, t);
    Out(PutMutex(PutThread(s, p, t, x.(wait := -1, held := x.held + {m})), m, s.mutexes[m].(locked := true, tid := t)), 0)
  }

  /** kthread_mutex_lock up to its return or its sleep; a sleeper has no result yet. */
  function LockStep(s: State, p: nat, t: nat, m: int): (r: Out)
    requires Shape(s) && Names(p, t)
    ensures Shape(r.s)
  {
    if !Usable(s, p, m) || s.mutexes[m].tid == t then Out(s, -1)
    else if s.mutexes[m].locked then
      Out(PutThread(s, p, t, Th(s, p, t).(blocked := true, asleep := true, chan := m, wait := m)), 0)
    else if Th(s, p, t).blocked then Out(s.(panicked := true), -1)
    else Acquired(s, p, t, m)
  }

  /** The rest of kthread_mutex_lock, once the sleeper runs again. */
  function ResumeStep(s: State, p: nat, t: nat): (r: Out)
    requires Shape(s) && Names(p, t) && 0 <= Th(s, p, t).wait < MAX_MUTEXES
    ensures Shape(r.s)
  {
    var s1 := PutThread(s, p, t, Th(s, p, t).(chan := -1));
    if Th(s, p, t).blocked then Out(s1.(panicked := true), -1)
    else Acquired(s1, p, t, Th(s, p, t).wait)
  }

  /** The thread `d` places after `h` in the cyclic order of slots. */
  function Cyclic(h: nat, d: nat): (t: nat)
    requires h < NTHREAD
    ensures t < NTHREAD
  {
    (h + d) % NTHREAD
  }

  /** unlock's search from `d` places after `h`: how far away the next waiter for `m` is. */
  function Scan(threads: seq<Thread>, m: int, h: nat, d: nat): (r: nat)
    requires |threads| == NTHREAD && h < NTHREAD && d <= NTHREAD
    ensures d <= r <= NTHREAD
    ensures r < NTHREAD ==> threads[Cyclic(h, r)].blocked && threads[Cyclic(h, r)].chan == m
    ensures forall k :: d <= k < r ==> !(threads[Cyclic(h, k)].blocked && threads[Cyclic(h, k)].chan == m)
    decreases NTHREAD - d
  {
    if d == NTHREAD || (threads[Cyclic(h, d)].blocked && threads[Cyclic(h, d)].chan == m) then d
    else Scan(threads, m, h, d + 1)
  }

  function UnlockStep(s: State, p: nat, t: nat, m: int): (r: Out)
    requires Shape(s) && Names(p, t)
    ensures Shape(r.s)
  {
    if !Usable(s, p, m) || s.mutexes[m].tid != t then Out(s, -1)
    else
      var d := Scan(s.procs[p].threads, m, t, 1);
      var s1 := PutThread(s, p, t, Th(s, p, t).(held := Th(s, p, t).held - {m}));
      if d == NTHREAD then Out(PutMutex(s1, m, s.mutexes[m].(locked := false, tid := -1)), 0)
      else
        var u := Cyclic(t, d);
        Out(PutMutex(PutThread(s1, p, u, Th(s1, p, u).(chan := -1, asleep := false, blocked := false)),
                  m, s.mutexes[m].(tid := u)), 0)
  }

  // ---- the machine ----

  datatype Event =
    | Alloc(p: nat, t: nat)
    | Dealloc(p: nat, t: nat, m: int)
    | Lock(p: nat, t: nat, m: int)
    | Resume(p: nat, t: nat)
    | Unlock(p: nat, t: nat, m: int)
    | Create(p: nat, t: nat, u: nat)
    | Exit(p: nat, t: nat)
    | Join(p: nat, t: nat, u: nat)
    | Fork(p: nat, t: nat, q: nat)

  /** The thread is executing outside kthread_mutex_lock. */
  predicate Runs(s: State, p: nat, t: nat)
    requires Shape(s)
  {
    Names(p, t) && Th(s, p, t).slot == Live && !Th(s, p, t).asleep && Th(s, p, t).wait == -1
  }

  predicate Enabled(s: State, e: Event) {
    && Shape(s) && !s.panicked
    && match e
       case Resume(p, t) => Names(p, t) && Th(s, p, t).slot == Live && !Th(s, p, t).asleep
                            && 0 <= Th(s, p, t).wait < MAX_MUTEXES
       case Create(p, t, u) => Runs(s, p, t) && u < NTHREAD && Th(s, p, u).slot == Unused
       case Exit(p, t) => Runs(s, p, t) && exists u: nat :: u < NTHREAD && u != t && Th(s, p, u).slot == Live
       case Join(p, t, u) => Runs(s, p, t) && u < NTHREAD && u != t && Th(s, p, u).slot == Zombie
       case Fork(p, t, q) => Runs(s, p, t) && q < NPROC && !s.procs[q].used
       case _ => Runs(s, e.p, e.t)
  }

  function NewProc(): (r: Proc)
    ensures |r.mid| == MAX_MUTEXES && |r.threads| == NTHREAD
  {
    Proc(true, seq(MAX_MUTEXES, i => false), seq(NTHREAD, i => if i == 0 then NEW_THREAD else NO_THREAD))
  }

  function Step(s: State, e: Event): (r: Out)
    requires Enabled(s, e)
    ensures Shape(r.s)
  {
    match e
    case Alloc(p, t) => AllocStep(s, p)
    case Dealloc(p, t, m) => DeallocStep(s, p, m)
    case Lock(p, t, m) => LockStep(s, p, t, m)
    case Resume(p, t) => ResumeStep(s, p, t)
    case Unlock(p, t, m) => UnlockStep(s, p, t, m)
    case Create(p, t, u) => Out(PutThread(s, p, u, NEW_THREAD), u)
    case Exit(p, t) => Out(PutThread(s, p, t, Th(s, p, t).(slot := Zombie, held := {})), 0)
    case Join(p, t, u) => Out(PutThread(s, p, u, NO_THREAD), 0)
    case Fork(p, t, q) => Out(s.(procs := s.procs[q := NewProc()]), q)
  }

  function NoProc(): (r: Proc)
    ensures |r.mid| == MAX_MUTEXES && |r.threads| == NTHREAD
  {
    Proc(false, seq(MAX_MUTEXES, i => false), seq(NTHREAD, i => NO_THREAD))
  }

  // ---- the invariant ----

  ghost predicate MutexOk(s: State, m: nat)
    requires Shape(s) && m < MAX_MUTEXES
  {
    var x := s.mutexes[m];
    (!x.alloc ==> !x.locked) && (x.alloc ==> -1 <= x.tid < NTHREAD && (x.locked <==> x.tid >= 0))
  }

  /** Registered means allocated, locked and owned by slot `t`. */
  ghost predicate OwnedBySlot(s: State, p: nat, t: nat, m: int)
    requires Shape(s) && p < NPROC
  {
    0 <= m < MAX_MUTEXES && Registered(s, p, m) && s.mutexes[m].locked && s.mutexes[m].tid == t
  }

  ghost predicate ThreadOk(s: State, p: nat, t: nat)
    requires Shape(s) && Names(p, t)
  {
    var x := Th(s, p, t);
    && (!s.procs[p].used ==> x == NO_THREAD)
    && -1 <= x.wait < MAX_MUTEXES
    && x.asleep == x.blocked && x.chan == (if x.blocked then x.wait else -1)
    && (x.blocked ==> x.wait >= 0)
    && (x.slot != Live ==> x.wait == -1 && x.held == {})
    && (x.wait >= 0 && !x.blocked ==> OwnedBySlot(s, p, t, x.wait))
    && (x.blocked ==> Registered(s, p, x.wait) && s.mutexes[x.wait].locked && s.mutexes[x.wait].tid != t)
    && (forall m :: m in x.held ==> OwnedBySlot(s, p, t, m) && m != x.wait)
  }

  ghost predicate RegOk(s: State, p: nat, m: nat)
    requires Shape(s) && p < NPROC && m < MAX_MUTEXES
  {
    Registered(s, p, m) ==> s.mutexes[m].alloc && s.procs[p].used
  }

  ghost predicate Unique(s: State, p: nat, q: nat, m: nat)
    requires Shape(s) && p < NPROC && q < NPROC && m < MAX_MUTEXES
  {
    Registered(s, p, m) && Registered(s, q, m) ==> p == q
  }

  ghost predicate Inv(s: State) {
    && Shape(s) && !s.panicked
    && (forall m :: 0 <= m < MAX_MUTEXES ==> MutexOk(s, m))
    && (forall p: nat, m: nat :: p < NPROC && m < MAX_MUTEXES ==> RegOk(s, p, m))
    && (forall p: nat, t: nat :: Names(p, t) ==> ThreadOk(s, p, t))
    && (forall p: nat, q: nat, m: nat :: p < NPROC && q < NPROC && m < MAX_MUTEXES ==> Unique(s, p, q, m))
  }

  // ---- every step keeps the invariant ----

  /** Same mutexes and registrations for process `p`, except possibly mutex `m`. */
  ghost predicate Apart(s: State, s': State, p: nat, m: int)
    requires Shape(s) && Shape(s') && p < NPROC
  {
    forall k: nat :: k < MAX_MUTEXES && k != m ==>
      s'.mutexes[k] == s.mutexes[k] && Registered(s', p, k) == Registered(s, p, k)
  }

  lemma ThreadFrame(s: State, s': State, p: nat, t: nat, m: int)
    requires Shape(s) && Shape(s') && Names(p, t) && ThreadOk(s, p, t)
    requires Th(s', p, t) == Th(s, p, t) && s'.procs[p].used == s.procs[p].used && Apart(s, s', p, m)
    requires m >= 0 ==> Th(s, p, t).wait != m && m !in Th(s, p, t).held
    ensures ThreadOk(s', p, t)
  {
  }

  /** Only threads of the process a mutex is registered to wait for it or hold it. */
  lemma NotConcerned(s: State, p: nat, t: nat, q: nat, m: nat)
    requires Inv(s) && Names(p, t) && q < NPROC && m < MAX_MUTEXES && q != p && Registered(s, q, m)
    ensures Th(s, p, t).wait != m && m !in Th(s, p, t).held
  {
    assert ThreadOk(s, p, t) && Unique(s, p, q, m);
  }

  lemma FreeNotConcerned(s: State, p: nat, t: nat, m: nat)
    requires Inv(s) && Names(p, t) && m < MAX_MUTEXES && !s.mutexes[m].locked
    ensures Th(s, p, t).wait != m && m !in Th(s, p, t).held
  {
    assert ThreadOk(s, p, t);
  }

  lemma AllocInv(s: State, p: nat)
    requires Inv(s) && p < NPROC && s.procs[p].used
    ensures Inv(AllocStep(s, p).s)
  {
    var i := FirstFree(s.mutexes, 0);
    var s' := AllocStep(s, p).s;
    if i < MAX_MUTEXES {
      assert MutexOk(s, i);
      forall q: nat | q < NPROC ensures !Registered(s, q, i) {
        assert RegOk(s, q, i);
      }
      forall q: nat, m: nat | q < NPROC && m < MAX_MUTEXES ensures RegOk(s', q, m) {
        assert RegOk(s, q, m);
      }
      forall q: nat, q': nat, m: nat | q < NPROC && q' < NPROC && m < MAX_MUTEXES ensures Unique(s', q, q', m) {
        assert Unique(s, q, q', m) && !Registered(s, q, i) && !Registered(s, q', i);
      }
      forall m | 0 <= m < MAX_MUTEXES ensures MutexOk(s', m) {
        assert MutexOk(s, m);
      }
      forall q: nat, t: nat | Names(q, t) ensures ThreadOk(s', q, t) {
        FreeNotConcerned(s, q, t, i);
        ThreadFrame(s, s', q, t, i);
      }
    }
  }

  lemma DeallocInv(s: State, p: nat, m: int)
    requires Inv(s) && p < NPROC && s.procs[p].used
    ensures Inv(DeallocStep(s, p, m).s)
  {
    var s' := DeallocStep(s, p, m).s;
    if Usable(s, p, m) && !s.mutexes[m].locked {
      forall q: nat, k: nat | q < NPROC && k < MAX_MUTEXES ensures RegOk(s', q, k) {
        assert RegOk(s, q, k) && Unique(s, p, q, m);
      }
      forall q: nat, q': nat, k: nat | q < NPROC && q' < NPROC && k < MAX_MUTEXES ensures Unique(s', q, q', k) {
        assert Unique(s, q, q', k);
      }
      forall k | 0 <= k < MAX_MUTEXES ensures MutexOk(s', k) {
        assert MutexOk(s, k);
      }
      forall q: nat, t: nat | Names(q, t) ensures ThreadOk(s', q, t) {
        FreeNotConcerned(s, q, t, m);
        ThreadFrame(s, s', q, t, m);
      }
    }
  }

  /** Steps that leave registrations alone: the tables need checking at one mutex only. */
  lemma TablesKept(s: State, s': State, m: nat)
    requires Inv(s) && Shape(s') && m < MAX_MUTEXES && MutexOk(s', m) && s'.mutexes[m].alloc == s.mutexes[m].alloc
    requires forall k :: 0 <= k < MAX_MUTEXES && k != m ==> s'.mutexes[k] == s.mutexes[k]
    requires forall p :: 0 <= p < NPROC ==> s'.procs[p].mid == s.procs[p].mid && s'.procs[p].used == s.procs[p].used
    ensures forall k :: 0 <= k < MAX_MUTEXES ==> MutexOk(s', k)
    ensures forall p: nat, k: nat :: p < NPROC && k < MAX_MUTEXES ==> RegOk(s', p, k)
    ensures forall p: nat, q: nat, k: nat :: p < NPROC && q < NPROC && k < MAX_MUTEXES ==> Unique(s', p, q, k)
  {
    forall k | 0 <= k < MAX_MUTEXES ensures MutexOk(s', k) {
      assert MutexOk(s, k);
    }
    forall q: nat, k: nat | q < NPROC && k < MAX_MUTEXES ensures RegOk(s', q, k) {
      assert RegOk(s, q, k);
    }
    forall q: nat, q': nat, k: nat | q < NPROC && q' < NPROC && k < MAX_MUTEXES ensures Unique(s', q, q', k) {
      assert Unique(s, q, q', k);
    }
  }

  lemma LockInv(s: State, p: nat, t: nat, m: int)
    requires Inv(s) && Runs(s, p, t)
    ensures Inv(LockStep(s, p, t, m).s)
  {
    assert ThreadOk(s, p, t);
    var s' := LockStep(s, p, t, m).s;
    if Usable(s, p, m) && s.mutexes[m].tid != t {
      assert MutexOk(s, m);
      TablesKept(s, s', m);
      forall q: nat, u: nat | Names(q, u) ensures ThreadOk(s', q, u) {
        assert ThreadOk(s, q, u);
        if (q, u) != (p, t) {
          if s.mutexes[m].locked {
            ThreadFrame(s, s', q, u, -1);
          } else {
            FreeNotConcerned(s, q, u, m);
            ThreadFrame(s, s', q, u, m);
          }
        }
      }
    }
  }

  lemma ResumeInv(s: State, p: nat, t: nat)
    requires Inv(s) && Enabled(s, Resume(p, t))
    ensures Inv(ResumeStep(s, p, t).s)
  {
    assert ThreadOk(s, p, t);
    var m := Th(s, p, t).wait;
    var s' := ResumeStep(s, p, t).s;
    assert MutexOk(s, m) && RegOk(s, p, m);
    TablesKept(s, s', m);
    forall q: nat, u: nat | Names(q, u) ensures ThreadOk(s', q, u) {
      assert ThreadOk(s, q, u);
      if (q, u) != (p, t) {
        ThreadFrame(s, s', q, u, -1);
      }
    }
  }

  /** How far after slot `h` slot `t` comes in the cyclic order. */
  function Distance(h: nat, t: nat): (d: nat)
    requires h < NTHREAD && t < NTHREAD
    ensures d < NTHREAD && Cyclic(h, d) == t && (d == 0 <==> h == t)
  {
    (t - h) % NTHREAD
  }

  lemma CyclicNext(h: nat, d: nat)
    requires h < NTHREAD && d < NTHREAD
    ensures Cyclic(h, d + 1) == if Cyclic(h, d) + 1 == NTHREAD then 0 else Cyclic(h, d) + 1
    ensures Cyclic(h, 0) == h && (Cyclic(h, d + 1) == h <==> d + 1 == NTHREAD)
  {
  }

  lemma DistanceOf(h: nat, d: nat)
    requires h < NTHREAD && d < NTHREAD
    ensures Distance(h, Cyclic(h, d)) == d
  {
  }

  lemma DistanceOfCyclic(h: nat, d: nat, t: nat)
    requires h < NTHREAD && t < NTHREAD && d <= Distance(h, t)
    ensures Distance(Cyclic(h, d), t) == Distance(h, t) - d
  {
  }

  lemma ScanReaches(threads: seq<Thread>, m: int, h: nat, t: nat)
    requires |threads| == NTHREAD && h < NTHREAD && t < NTHREAD && t != h
    requires threads[t].blocked && threads[t].chan == m
    ensures Scan(threads, m, h, 1) <= Distance(h, t)
  {
    var d := Distance(h, t);
    assert threads[Cyclic(h, d)] == threads[t];
  }

  lemma UnlockThread(s: State, p: nat, t: nat, m: int, q: nat, v: nat)
    requires Inv(s) && Runs(s, p, t) && Usable(s, p, m) && s.mutexes[m].tid == t && Names(q, v)
    ensures ThreadOk(UnlockStep(s, p, t, m).s, q, v)
  {
    var s' := UnlockStep(s, p, t, m).s;
    assert ThreadOk(s, q, v) && ThreadOk(s, p, t) && MutexOk(s, m);
    if q != p {
      NotConcerned(s, q, v, p, m);
      ThreadFrame(s, s', q, v, m);
    } else if v != t {
      var x := Th(s, p, v);
      if x.blocked && x.chan == m {
        ScanReaches(s.procs[p].threads, m, t, v);
      } else {
        assert x.wait != m;
        ThreadFrame(s, s', q, v, m);
      }
    }
  }

  lemma UnlockInv(s: State, p: nat, t: nat, m: int)
    requires Inv(s) && Runs(s, p, t)
    ensures Inv(UnlockStep(s, p, t, m).s)
  {
    var s' := UnlockStep(s, p, t, m).s;
    if Usable(s, p, m) && s.mutexes[m].tid == t {
      assert MutexOk(s, m);
      TablesKept(s, s', m);
      forall q: nat, v: nat | Names(q, v) ensures ThreadOk(s', q, v) {
        UnlockThread(s, p, t, m, q, v);
      }
    }
  }

  /** unlock makes no thread and ends none. */
  lemma UnlockKeepsSlots(s: State, p: nat, t: nat, m: int)
    requires Shape(s) && Names(p, t)
    ensures forall x: nat :: x < NTHREAD ==> Th(UnlockStep(s, p, t, m).s, p, x).slot == Th(s, p, x).slot
  {
    hide Scan;
  }

  /** What unlocking leaves alone: other mutexes, other processes, registrations, what everyone is
      waiting for, and every thread but the caller and a waiter for the mutex. */
  lemma UnlockFrame(s: State, p: nat, t: nat, m: int)
    requires Shape(s) && Names(p, t)
    ensures var s' := UnlockStep(s, p, t, m).s;
            && (forall k :: 0 <= k < MAX_MUTEXES && (k != m || !Registered(s, p, k)) ==> s'.mutexes[k] == s.mutexes[k])
            && (forall q :: 0 <= q < NPROC ==> s'.procs[q].mid == s.procs[q].mid && (q != p ==> s'.procs[q] == s.procs[q]))
            && (forall x: nat :: x < NTHREAD ==> Th(s', p, x).wait == Th(s, p, x).wait)
            && (forall x: nat :: x < NTHREAD && x != t && !(Th(s, p, x).blocked && Th(s, p, x).chan == m) ==> Th(s', p, x) == Th(s, p, x))
  {
  }

  /** Creating, ending and joining threads, and forking. */
  lemma ThreadStepInv(s: State, e: Event)
    requires Inv(s) && Enabled(s, e) && (e.Create? || e.Exit? || e.Join?)
    ensures Inv(Step(s, e).s)
  {
    var s' := Step(s, e).s;
    assert ThreadOk(s, e.p, e.t) && MutexOk(s, 0);
    TablesKept(s, s', 0);
    forall q: nat, v: nat | Names(q, v) ensures ThreadOk(s', q, v) {
      assert ThreadOk(s, q, v);
      if Th(s', q, v) == Th(s, q, v) {
        ThreadFrame(s, s', q, v, -1);
      }
    }
  }

  lemma ForkInv(s: State, e: Event)
    requires Inv(s) && Enabled(s, e) && e.Fork?
    ensures Inv(Step(s, e).s)
  {
    var s' := Step(s, e).s;
    forall k | 0 <= k < MAX_MUTEXES ensures MutexOk(s', k) {
      assert MutexOk(s, k);
    }
    forall p: nat, k: nat | p < NPROC && k < MAX_MUTEXES ensures RegOk(s', p, k) {
      assert RegOk(s, p, k);
    }
    forall p: nat, q: nat, k: nat | p < NPROC && q < NPROC && k < MAX_MUTEXES ensures Unique(s', p, q, k) {
      assert Unique(s, p, q, k);
    }
    forall p: nat, v: nat | Names(p, v) ensures ThreadOk(s', p, v) {
      assert ThreadOk(s, p, v);
      if p != e.q {
        ThreadFrame(s, s', p, v, -1);
      }
    }
  }

  lemma RunnerUsed(s: State, p: nat, t: nat)
    requires Inv(s) && Runs(s, p, t)
    ensures s.procs[p].used
  {
    assert ThreadOk(s, p, t);
  }

  lemma StepInv(s: State, e: Event)
    requires Inv(s) && Enabled(s, e)
    ensures Inv(Step(s, e).s)
  {
    hide Inv, AllocStep, DeallocStep, LockStep, ResumeStep, UnlockStep;
    match e
    case Alloc(p, t) => RunnerUsed(s, p, t); AllocInv(s, p);
    case Dealloc(p, t, m) => RunnerUsed(s, p, t); DeallocInv(s, p, m);
    case Lock(p, t, m) => LockInv(s, p, t, m);
    case Resume(p, t) => ResumeInv(s, p, t);
    case Unlock(p, t, m) => UnlockInv(s, p, t, m);
    case Fork(p, t, q) => ForkInv(s, e);
    case _ => ThreadStepInv(s, e);
  }

  // ---- whole runs ----

  predicate StepAt(ss: seq<State>, es: seq<Event>, i: nat)
    requires i < |es| && i + 1 < |ss|
  {
    Enabled(ss[i], es[i]) && ss[i + 1] == Step(ss[i], es[i]).s
  }

  /** `ss` are the states of a run whose steps are `es`. */
  predicate Trace(ss: seq<State>, es: seq<Event>) {
    |ss| == |es| + 1 && forall i :: 0 <= i < |es| ==> StepAt(ss, es, i)
  }

  /** Boot: no mutex is allocated and one process runs one thread. */
  predicate Init(s: State) {
    && Shape(s) && !s.panicked
    && (forall m :: 0 <= m < MAX_MUTEXES ==> s.mutexes[m] == Mutex(false, false, 0))
    && s.procs[0] == NewProc()
    && forall p :: 0 < p < NPROC ==> s.procs[p] == NoProc()
  }

  lemma Boot() returns (s: State)
    ensures Init(s)
  {
    var procs := seq(NPROC, p => if p == 0 then NewProc() else NoProc());
    assert forall p :: 0 <= p < NPROC ==> procs[p] == if p == 0 then NewProc() else NoProc();
    s := State(seq(MAX_MUTEXES, _ => Mutex(false, false, 0)), procs, false);
    assert forall p :: 0 <= p < NPROC ==> s.procs[p] == procs[p];
  }

  lemma InitInv(s: State)
    requires Init(s)
    ensures Inv(s)
  {
  }

  lemma {:induction false} RunInv(ss: seq<State>, es: seq<Event>, k: nat)
    requires Trace(ss, es) && Inv(ss[0]) && k < |ss|
    ensures Inv(ss[k])
  {
    hide Inv, Step, Enabled;
    if k > 0 {
      RunInv(ss, es, k - 1);
      assert StepAt(ss, es, k - 1);
      StepInv(ss[k - 1], es[k - 1]);
    }
  }

  /** The thread owns the mutex: its lock call returned 0, or it has been handed the mutex and
      has yet to run again. */
  ghost predicate Owns(s: State, p: nat, t: nat, m: nat)
    requires Shape(s) && Names(p, t)
  {
    m in Th(s, p, t).held || (Th(s, p, t).wait == m && !Th(s, p, t).blocked)
  }

  ghost predicate Waits(s: State, p: nat, t: nat, m: nat)
    requires Shape(s) && Names(p, t)
  {
    Th(s, p, t).blocked && Th(s, p, t).wait == m
  }

  /** In every reachable state: no "Thread is Blocked" panic, and a mutex has one owner. */
  lemma MutualExclusion(ss: seq<State>, es: seq<Event>, k: nat, p: nat, t: nat, q: nat, u: nat, m: nat)
    requires Trace(ss, es) && Init(ss[0]) && k < |ss| && Names(p, t) && Names(q, u)
    ensures Shape(ss[k]) && !ss[k].panicked
    ensures Owns(ss[k], p, t, m) && Owns(ss[k], q, u, m) ==> (p, t) == (q, u)
    ensures Owns(ss[k], p, t, m) ==> !Waits(ss[k], q, u, m) || p == q
  {
    InitInv(ss[0]);
    RunInv(ss, es, k);
    assert ThreadOk(ss[k], p, t) && ThreadOk(ss[k], q, u);
    if m < MAX_MUTEXES {
      assert Unique(ss[k], p, q, m);
    }
  }

  /** In every reachable state: a blocked waiter's mutex is allocated, locked, registered to the
      waiter's process and to no other, and held by another slot. */
  lemma WaiterMeansLocked(ss: seq<State>, es: seq<Event>, k: nat, p: nat, t: nat, m: nat)
    requires Trace(ss, es) && Init(ss[0]) && k < |ss| && Names(p, t)
    ensures Shape(ss[k])
    ensures Waits(ss[k], p, t, m) ==> m < MAX_MUTEXES && ss[k].mutexes[m].alloc && ss[k].mutexes[m].locked
    ensures Waits(ss[k], p, t, m) ==> 0 <= ss[k].mutexes[m].tid < NTHREAD && ss[k].mutexes[m].tid != t
    ensures Waits(ss[k], p, t, m) ==> forall q: nat :: q < NPROC ==> (Registered(ss[k], q, m) <==> q == p)
  {
    InitInv(ss[0]);
    RunInv(ss, es, k);
    assert ThreadOk(ss[k], p, t);
    if Waits(ss[k], p, t, m) {
      assert MutexOk(ss[k], m) && RegOk(ss[k], p, m);
      forall q: nat | q < NPROC ensures Registered(ss[k], q, m) <==> q == p {
        assert Unique(ss[k], p, q, m);
      }
    }
  }

  /** In every reachable state: registered means allocated, and to one process only. */
  lemma OneRegistration(ss: seq<State>, es: seq<Event>, k: nat, p: nat, q: nat, m: nat)
    requires Trace(ss, es) && Init(ss[0]) && k < |ss| && p < NPROC && q < NPROC && m < MAX_MUTEXES
    ensures Shape(ss[k])
    ensures Registered(ss[k], p, m) ==> ss[k].mutexes[m].alloc
    ensures Registered(ss[k], p, m) && Registered(ss[k], q, m) ==> p == q
  {
    InitInv(ss[0]);
    RunInv(ss, es, k);
    assert RegOk(ss[k], p, m) && Unique(ss[k], p, q, m);
  }

  /** A deallocation that succeeds leaves no waiter and no owner behind. */
  lemma DeallocStrandsNobody(s: State, p: nat, m: nat, q: nat, u: nat)
    requires Inv(s) && p < NPROC && Names(q, u) && DeallocStep(s, p, m).r == 0
    ensures !Waits(s, q, u, m) && !Owns(s, q, u, m)
  {
    FreeNotConcerned(s, q, u, m);
  }

  // ---- bounded waiting ----

  /** The step is a successful unlock of `m`. */
  ghost predicate Unlocks(s: State, e: Event, m: nat)
    requires Enabled(s, e)
  {
    e.Unlock? && e.m == m && Step(s, e).r == 0
  }

  lemma HandoffNearer(s: State, p: nat, u: nat, t: nat, m: nat)
    requires Inv(s) && Names(p, t) && Runs(s, p, u) && Waits(s, p, t, m) && Usable(s, p, m) && s.mutexes[m].tid == u
    ensures var s' := UnlockStep(s, p, u, m).s;
            Owns(s', p, t, m)
            || (Waits(s', p, t, m) && 0 <= s'.mutexes[m].tid < NTHREAD && Distance(s'.mutexes[m].tid, t) < Distance(u, t))
  {
    assert ThreadOk(s, p, t) && ThreadOk(s, p, u);
    ScanReaches(s.procs[p].threads, m, u, t);
    DistanceOfCyclic(u, Scan(s.procs[p].threads, m, u, 1), t);
  }

  /** A waiter stays blocked, the owner unchanged, until an unlock; each unlock hands the mutex
      to the waiter or to a slot strictly nearer to it. No thread barges in. */
  lemma WaiterAdvances(s: State, e: Event, p: nat, t: nat, m: nat)
    requires Inv(s) && Enabled(s, e) && Names(p, t) && Waits(s, p, t, m)
    ensures m < MAX_MUTEXES && 0 <= s.mutexes[m].tid < NTHREAD && s.mutexes[m].tid != t
    ensures var s' := Step(s, e).s;
            !Unlocks(s, e, m) ==> Waits(s', p, t, m) && s'.mutexes[m].tid == s.mutexes[m].tid
    ensures var s' := Step(s, e).s;
            Unlocks(s, e, m) && !Owns(s', p, t, m) ==>
              Waits(s', p, t, m) && 0 <= s'.mutexes[m].tid < NTHREAD
              && Distance(s'.mutexes[m].tid, t) < Distance(s.mutexes[m].tid, t)
  {
    assert ThreadOk(s, p, t) && ThreadOk(s, e.p, e.t) && MutexOk(s, m) && RegOk(s, p, m);
    match e
    case Unlock(q, u, k) =>
      if Usable(s, q, k) && s.mutexes[k].tid == u {
        assert Unique(s, p, q, m);
        if k == m {
          HandoffNearer(s, p, u, t, m);
        } else {
          assert Th(s, p, t).chan == m;
        }
      }
    case Alloc(_, _) => assert s.mutexes[m].alloc;
    case Resume(q, u) => assert (q, u) != (p, t) && (Th(s, q, u).wait == m ==> s.mutexes[m].tid == u);
    case _ =>
  }

  /** Successful unlocks of `m` among the first `n` steps. */
  ghost function Handoffs(ss: seq<State>, es: seq<Event>, m: nat, n: nat): (c: nat)
    requires Trace(ss, es) && n <= |es|
  {
    if n == 0 then 0
    else
      assert StepAt(ss, es, n - 1);
      Handoffs(ss, es, m, n - 1) + if Unlocks(ss[n - 1], es[n - 1], m) then 1 else 0
  }

  /** The thread waits, and unlocks so far plus its distance from the holder stay within `d`. */
  ghost predicate WaitsWithin(ss: seq<State>, es: seq<Event>, p: nat, t: nat, m: nat, n: nat, d: nat)
    requires Trace(ss, es) && n <= |es| && Names(p, t)
  {
    && Shape(ss[n]) && Waits(ss[n], p, t, m) && m < MAX_MUTEXES && 0 <= ss[n].mutexes[m].tid < NTHREAD
    && Handoffs(ss, es, m, n) + Distance(ss[n].mutexes[m].tid, t) <= d
  }

  ghost predicate OwnsWithin(ss: seq<State>, es: seq<Event>, p: nat, t: nat, m: nat, n: nat, d: nat)
    requires Trace(ss, es) && n <= |es| && Names(p, t)
  {
    Shape(ss[n]) && Owns(ss[n], p, t, m) && Handoffs(ss, es, m, n) <= d
  }

  lemma WaitStep(ss: seq<State>, es: seq<Event>, p: nat, t: nat, m: nat, n: nat, d: nat)
    requires Trace(ss, es) && n < |es| && Names(p, t) && Inv(ss[n]) && WaitsWithin(ss, es, p, t, m, n, d)
    ensures OwnsWithin(ss, es, p, t, m, n + 1, d) || WaitsWithin(ss, es, p, t, m, n + 1, d)
  {
    hide Inv, Step, Enabled, Distance, Owns, Waits;
    assert StepAt(ss, es, n);
    WaiterAdvances(ss[n], es[n], p, t, m);
    assert Handoffs(ss, es, m, n + 1) == Handoffs(ss, es, m, n) + if Unlocks(ss[n], es[n], m) then 1 else 0;
  }

  lemma WaitStart(ss: seq<State>, es: seq<Event>, p: nat, t: nat, m: nat) returns (d: nat)
    requires Trace(ss, es) && Inv(ss[0]) && Names(p, t) && Waits(ss[0], p, t, m)
    ensures m < MAX_MUTEXES && 0 <= ss[0].mutexes[m].tid < NTHREAD
    ensures d == Distance(ss[0].mutexes[m].tid, t) <= NTHREAD - 1 && WaitsWithin(ss, es, p, t, m, 0, d)
  {
    hide Step, Enabled;
    assert ThreadOk(ss[0], p, t) && MutexOk(ss[0], m) && RegOk(ss[0], p, m);
    d := Distance(ss[0].mutexes[m].tid, t);
  }

  /** A waiter owns the mutex after at most `Distance(holder, waiter)` unlocks, hence after at
      most NTHREAD - 1: at every step it has owned it, or it waits with unlocks to spare. */
  lemma {:induction false} BoundedWait(ss: seq<State>, es: seq<Event>, p: nat, t: nat, m: nat, n: nat) returns (d: nat)
    requires Trace(ss, es) && Inv(ss[0]) && Names(p, t) && Waits(ss[0], p, t, m) && n <= |es|
    ensures m < MAX_MUTEXES && 0 <= ss[0].mutexes[m].tid < NTHREAD
    ensures d == Distance(ss[0].mutexes[m].tid, t) <= NTHREAD - 1
    ensures (exists k: nat :: k <= n && OwnsWithin(ss, es, p, t, m, k, d)) || WaitsWithin(ss, es, p, t, m, n, d)
  {
    hide Inv, Step, Enabled, WaitsWithin, OwnsWithin;
    d := WaitStart(ss, es, p, t, m);
    if n > 0 {
      var d' := BoundedWait(ss, es, p, t, m, n - 1);
      if WaitsWithin(ss, es, p, t, m, n - 1, d) {
        RunInv(ss, es, n - 1);
        WaitStep(ss, es, p, t, m, n - 1, d);
      }
    }
  }

  // ---- the code ----

  /** mtable and the process table's mutex fields, updated in place. */
  class Kernel {
    var mutexes: seq<Mutex>
    var procs: seq<Proc>
    var panicked: bool

    ghost function View(): (s: State)
      reads this
    {
      State(mutexes, procs, panicked)
    }

    /** kthread_mutex_alloc: the first mutex that is not allocated. */
    method Alloc(p: nat) returns (r: int)
      requires Shape(View()) && p < NPROC
      modifies this
      ensures Out(View(), r) == AllocStep(old(View()), p)
      ensures r == -1 <==> forall m :: 0 <= m < MAX_MUTEXES ==> old(mutexes)[m].alloc
      ensures r != -1 ==> 0 <= r < MAX_MUTEXES && !old(mutexes)[r].alloc && forall m :: 0 <= m < r ==> old(mutexes)[m].alloc
    {
      var i := 0;
      while i < MAX_MUTEXES
        invariant 0 <= i <= MAX_MUTEXES && View() == old(View())
        invariant FirstFree(mutexes, 0) == FirstFree(mutexes, i)
      {
        if !mutexes[i].alloc {
          mutexes := mutexes[i := Mutex(true, false, -1)];
          procs := procs[p := procs[p].(mid := procs[p].mid[i := true])];
          return i;
        }
        i := i + 1;
      }
      return -1;
    }

    method Dealloc(p: nat, m: int) returns (r: int)
      requires Shape(View()) && p < NPROC
      modifies this
      ensures Out(View(), r) == DeallocStep(old(View()), p, m)
    {
      if m < 0 || m >= MAX_MUTEXES {
        return -1;
      }
      if !mutexes[m].alloc {
        return -1;
      }
      if !procs[p].mid[m] {
        return -1;
      }
      if mutexes[m].locked {
        return -1;
      }
      mutexes := mutexes[m := Mutex(false, false, -1)];
      procs := procs[p := procs[p].(mid := procs[p].mid[m := false])];
      return 0;
    }

    method SetThread(p: nat, t: nat, x: Thread)
      requires Shape(View()) && Names(p, t)
      modifies `procs
      ensures View() == PutThread(old(View()), p, t, x)
    {
      procs := procs[p := procs[p].(threads := procs[p].threads[t := x])];
    }

    /** The end of kthread_mutex_lock, from its check of `blocked` on. */
    method Acquire(p: nat, t: nat, m: nat) returns (r: int)
      requires Shape(View()) && Names(p, t) && m < MAX_MUTEXES
      modifies this
      ensures Out(View(), r) == if old(Th(View(), p, t)).blocked then Out(old(View()).(panicked := true), -1)
                                else Acquired(old(View()), p, t, m)
    {
      if procs[p].threads[t].blocked {
        panicked := true;
        return -1;
      }
      mutexes := mutexes[m := mutexes[m].(locked := true, tid := t)];
      var x := procs[p].threads[t];
      SetThread(p, t, x.(wait := -1, held := x.held + {m}));
      return 0;
    }

    /** kthread_mutex_lock as far as its sleep. */
    method Lock(p: nat, t: nat, m: int) returns (r: int)
      requires Shape(View()) && Names(p, t)
      modifies this
      ensures Out(View(), r) == LockStep(old(View()), p, t, m)
    {
      if m < 0 || m >= MAX_MUTEXES {
        return -1;
      }
      if !mutexes[m].alloc {
        return -1;
      }
      if !procs[p].mid[m] {
        return -1;
      }
      if mutexes[m].tid == t {
        return -1;
      }
      if mutexes[m].locked {
        SetThread(p, t, procs[p].threads[t].(blocked := true, asleep := true, chan := m, wait := m));
        return 0;
      }
      r := Acquire(p, t, m);
    }

    method Resume(p: nat, t: nat) returns (r: int)
      requires Shape(View()) && Names(p, t) && 0 <= procs[p].threads[t].wait < MAX_MUTEXES
      modifies this
      ensures Out(View(), r) == ResumeStep(old(View()), p, t)
    {
      SetThread(p, t, procs[p].threads[t].(chan := -1));
      r := Acquire(p, t, procs[p].threads[t].wait);
    }

    /** unlock's loop over the slots: the nearest waiter after `t`, or `t` itself if none. */
    method FindWaiter(p: nat, t: nat, m: int) returns (u: nat)
      requires Shape(View()) && Names(p, t)
      ensures u == Cyclic(t, Scan(procs[p].threads, m, t, 1))
      ensures u == t <==> Scan(procs[p].threads, m, t, 1) == NTHREAD
      ensures u != t ==> procs[p].threads[u].blocked && procs[p].threads[u].chan == m
      ensures forall v :: 0 <= v < NTHREAD && v != t && procs[p].threads[v].blocked && procs[p].threads[v].chan == m
                          ==> u != t && Distance(t, u) <= Distance(t, v)
    {
      hide Cyclic, Distance;
      ghost var threads, d := procs[p].threads, 1;
      CyclicNext(t, 0);
      u := t + 1;
      if u == NTHREAD {
        u := 0;
      }
      while u != t
        invariant 1 <= d <= NTHREAD && u == Cyclic(t, d) && (d == NTHREAD <==> u == t)
        invariant Scan(threads, m, t, 1) == Scan(threads, m, t, d)
        decreases NTHREAD - d
      {
        if procs[p].threads[u].blocked && procs[p].threads[u].chan == m {
          break;
        }
        CyclicNext(t, d);
        u := u + 1;
        if u == NTHREAD {
          u := 0;
        }
        d := d + 1;
      }
      forall v | 0 <= v < NTHREAD && v != t && threads[v].blocked && threads[v].chan == m
        ensures u != t && Distance(t, u) <= Distance(t, v)
      {
        ScanReaches(threads, m, t, v);
        DistanceOf(t, d);
      }
    }

    /** kthread_mutex_unlock: round the slots from the one after the caller, to the first waiter. */
    method Unlock(p: nat, t: nat, m: int) returns (r: int)
      requires Shape(View()) && Names(p, t)
      modifies this
      ensures Out(View(), r) == UnlockStep(old(View()), p, t, m)
    {
      if m < 0 || m >= MAX_MUTEXES {
        return -1;
      }
      if !mutexes[m].alloc {
        return -1;
      }
      if !procs[p].mid[m] {
        return -1;
      }
      if mutexes[m].tid != t {
        return -1;
      }
      var u := FindWaiter(p, t, m);
      var x := procs[p].threads[t];
      SetThread(p, t, x.(held := x.held - {m}));
      if u != t {
        SetThread(p, u, procs[p].threads[u].(chan := -1, asleep := false, blocked := false));
        mutexes := mutexes[m := mutexes[m].(tid := u)];
        return 0;
      }
      mutexes := mutexes[m := mutexes[m].(locked := false, tid := -1)];
      return 0;
    }
  }
}
