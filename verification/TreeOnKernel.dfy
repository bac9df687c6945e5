/** The tournament tree run on the kernel's own mutexes: tournament_tree.c calling proc.c. Every
    run of this combination is a run of the tree machine of Tournament. */
module TreeOnKernel {
  import M = Mutexes
  import T = Tournament

  /** Where a thread is in tournament_tree.c; inside a lock call the kernel knows the rest. */
  datatype Code = Out | Climb(k: nat) | InLock(k: nat) | AtTop | Critical | Descend(k: nat)

  /** Process `p` uses a tree of depth `depth`, whose node n is kernel mutex ids[n]. */
  datatype Setup = Setup(p: nat, depth: nat, ids: seq<int>)

  /** code[i] is where the user of tree id `i` is, and at[i] which kernel thread that is, as long
      as somebody uses the id. `failed`: a lock or unlock call of the tree code has returned -1. */
  datatype System = System(ms: M.State, code: seq<Code>, at: seq<nat>, tid: T.Tid, failed: bool)

  predicate SetupOk(u: Setup) {
    && u.p < M.NPROC && u.depth >= 1 && |u.ids| == T.Size(u.depth)
    && (forall n :: 0 <= n < |u.ids| ==> 0 <= u.ids[n] < M.MAX_MUTEXES)
    && (forall n, m :: 0 <= n < m < |u.ids| ==> u.ids[n] != u.ids[m])
  }

  predicate CodeOk(depth: nat, x: Code) {
    x.Climb? || x.InLock? || x.Descend? ==> x.k < depth
  }

  predicate Shape(u: Setup, c: System) {
    && SetupOk(u) && M.Shape(c.ms) && |c.code| == |c.at| == T.Pow2(u.depth)
    && (forall i :: 0 <= i < |c.code| ==> CodeOk(u.depth, c.code[i]) && c.at[i] < M.NTHREAD)
  }

  /** Somebody uses tree id `i`. */
  predicate Inside(c: System, i: nat) {
    i < |c.code| && c.code[i] != Out
  }

  /** The mutex at level `k` of the path of thread `i`. */
  function MutexAt(u: Setup, i: nat, k: nat): (m: int)
    requires SetupOk(u) && i < T.Pow2(u.depth) && k < u.depth
    ensures 0 <= m < M.MAX_MUTEXES
  {
    T.NodeRange(u.depth, i, k);
    u.ids[T.Node(u.depth, i, k)]
  }

  function ThreadOf(u: Setup, c: System, i: nat): (x: M.Thread)
    requires Shape(u, c) && i < |c.code|
  {
    M.Th(c.ms, u.p, c.at[i])
  }

  /** A step of the tree code under id `i`, which kernel thread `t` takes up in Begin, or any other
      kernel step. */
  datatype Act = Begin(i: nat, t: nat) | CallLock(i: nat) | WakeUp(i: nat) | Enter(i: nat) | Exit(i: nat) | CallUnlock(i: nat)
               | Other(e: M.Event)

  /** The step is not by a thread on its way through the tree, though it may be by the one in the
      critical section, as long as that stays alive; and it does not use the tree's mutexes. */
  predicate Elsewhere(u: Setup, c: System, e: M.Event)
    requires |c.at| == |c.code|
  {
    e.p == u.p ==>
      && (forall i :: 0 <= i < |c.code| && Inside(c, i) && c.at[i] == e.t ==> c.code[i] == Critical && !e.Exit?)
      && (e.Lock? || e.Unlock? || e.Dealloc? ==> e.m !in u.ids)
  }

  predicate Enabled(u: Setup, c: System, a: Act) {
    && Shape(u, c)
    && match a
       case Begin(i, t) => i < |c.code| && c.code[i] == Out && M.Runs(c.ms, u.p, t)
                           && forall j :: 0 <= j < |c.code| && Inside(c, j) ==> c.at[j] != t
       case CallLock(i) => i < |c.code| && c.code[i].Climb?
       case WakeUp(i) => i < |c.code| && c.code[i].InLock? && M.Enabled(c.ms, M.Resume(u.p, c.at[i]))
       case Enter(i) => i < |c.code| && c.code[i] == AtTop
       case Exit(i) => i < |c.code| && c.code[i] == Critical && M.Runs(c.ms, u.p, c.at[i])
       case CallUnlock(i) => i < |c.code| && c.code[i].Descend?
       case Other(e) => M.Enabled(c.ms, e) && Elsewhere(u, c, e)
  }

  function Above(depth: nat, k: nat): (r: Code)
    requires k < depth
    ensures CodeOk(depth, r)
  {
    if k == depth - 1 then AtTop else Climb(k + 1)
  }

  function Below(k: nat): (r: Code)
    ensures forall d :: k < d ==> CodeOk(d, r)
  {
    if k == 0 then Out else Descend(k - 1)
  }

  /** One step of the tree code, with the kernel's own step for each system call. */
  function Step(u: Setup, c: System, a: Act): (r: System)
    requires Enabled(u, c, a)
    ensures Shape(u, r)
  {
    match a
    case Begin(i, t) => c.(code := c.code[i := Climb(0)], at := c.at[i := t])
    case CallLock(i) =>
      var k := c.code[i].k;
      var o := M.LockStep(c.ms, u.p, c.at[i], MutexAt(u, i, k));
      c.(ms := o.s, failed := c.failed || o.r < 0,
         code := c.code[i := if M.Th(o.s, u.p, c.at[i]).asleep then InLock(k) else Above(u.depth, k)])
    case WakeUp(i) =>
      var o := M.ResumeStep(c.ms, u.p, c.at[i]);
      c.(ms := o.s, failed := c.failed || o.r < 0, code := c.code[i := Above(u.depth, c.code[i].k)])
    case Enter(i) => c.(code := c.code[i := Critical], tid := T.Tid(i, true))
    case Exit(i) => c.(code := c.code[i := Descend(u.depth - 1)], tid := T.Tid(-1, true))
    case CallUnlock(i) =>
      var k := c.code[i].k;
      var o := M.UnlockStep(c.ms, u.p, c.at[i], MutexAt(u, i, k));
      c.(ms := o.s, failed := c.failed || o.r < 0, code := c.code[i := Below(k)])
    case Other(e) => c.(ms := M.Step(c.ms, e).s)
  }

  // ---- the tree machine's view ----

  ghost predicate NodeRel(u: Setup, c: System, s: T.State, n: nat)
    requires Shape(u, c) && T.Shape(s) && s.depth == u.depth && n < |u.ids|
  {
    var m := c.ms.mutexes[u.ids[n]];
    && M.Usable(c.ms, u.p, u.ids[n])
    && (m.locked <==> s.owner[n] != -1)
    && (m.locked ==> 0 <= s.owner[n] < |c.code| && m.tid == c.at[s.owner[n]])
  }

  ghost predicate ThreadRel(u: Setup, c: System, s: T.State, i: nat)
    requires Shape(u, c) && T.Shape(s) && s.depth == u.depth && i < |c.code|
  {
    var x := ThreadOf(u, c, i);
    && (c.code[i] != Out ==> x.slot == M.Live)
    && match c.code[i]
       case Out => s.pc[i] == T.Out
       case InLock(k) => x.wait == MutexAt(u, i, k) && s.pc[i] == if x.blocked then T.Wait(k) else T.Granted(k)
       case Climb(k) => x.wait == -1 && s.pc[i] == T.Climb(k)
       case AtTop => x.wait == -1 && s.pc[i] == T.AtTop
       case Critical => s.pc[i] == T.Critical
       case Descend(k) => x.wait == -1 && s.pc[i] == T.Descend(k)
  }

  ghost predicate Locking(c: System, t: nat)
    requires |c.at| == |c.code|
  {
    exists i :: 0 <= i < |c.code| && c.code[i].InLock? && c.at[i] == t
  }

  /** Only threads inside a lock call of the tree code wait for its mutexes. */
  ghost predicate Apart(u: Setup, c: System, t: nat)
    requires Shape(u, c) && t < M.NTHREAD
  {
    M.Th(c.ms, u.p, t).wait in u.ids ==> Locking(c, t)
  }

  /** No thread uses two ids at once. */
  ghost predicate OneEach(c: System, i: nat, j: nat)
    requires i < |c.code| && j < |c.code| && |c.at| == |c.code|
  {
    Inside(c, i) && Inside(c, j) && c.at[i] == c.at[j] ==> i == j
  }

  ghost predicate Rel(u: Setup, c: System, s: T.State) {
    && Shape(u, c) && M.Inv(c.ms) && T.Inv(s) && s.depth == u.depth && s.tid == c.tid && !c.failed
    && (forall n: nat :: n < |u.ids| ==> NodeRel(u, c, s, n))
    && (forall i: nat :: i < |c.code| ==> ThreadRel(u, c, s, i))
    && (forall t: nat :: t < M.NTHREAD ==> Apart(u, c, t))
    && (forall i: nat, j: nat :: i < |c.code| && j < |c.code| ==> OneEach(c, i, j))
  }

  /** A node's owner is inside. */
  lemma OwnerInside(u: Setup, c: System, s: T.State, n: nat)
    requires Rel(u, c, s) && n < |s.owner| && s.owner[n] != -1
    ensures 0 <= s.owner[n] < |c.code| && Inside(c, s.owner[n])
  {
    assert T.OwnerOk(s, n);
    var j: nat := s.owner[n];
    var l: nat :| l < s.depth && T.Node(s.depth, j, l) == n;
    assert T.HoldsOk(s, j, l) && ThreadRel(u, c, s, j);
  }

  /** Locking threads are still locking after a step that leaves their place and name alone. */
  lemma StillLocking(c: System, c': System, t: nat)
    requires |c.at| == |c.code| && |c'.at| == |c'.code| == |c.code| && Locking(c, t)
    requires forall i :: 0 <= i < |c.code| && c.code[i].InLock? && c.at[i] == t ==> c'.code[i] == c.code[i] && c'.at[i] == c.at[i]
    ensures Locking(c', t)
  {
    var i :| 0 <= i < |c.code| && c.code[i].InLock? && c.at[i] == t;
    assert c'.code[i].InLock? && c'.at[i] == t;
  }

  // ---- each step of the code is a step of the tree machine ----

  lemma CodeStep(u: Setup, c: System, s: T.State, a: Act, e: T.Event)
    requires Rel(u, c, s) && Enabled(u, c, a)
    requires match a
             case Begin(i, _) => e == T.Begin(i)
             case Enter(i) => e == T.Enter(i)
             case Exit(i) => e == T.Exit(i)
             case _ => false
    ensures T.Enabled(s, e) && Rel(u, Step(u, c, a), T.Step(s, e))
  {
    assert ThreadRel(u, c, s, a.i);
    T.StepInv(s, e);
    var c', s' := Step(u, c, a), T.Step(s, e);
    forall n: nat | n < |u.ids| ensures NodeRel(u, c', s', n) {
      assert NodeRel(u, c, s, n);
      if s.owner[n] != -1 { OwnerInside(u, c, s, n); }
    }
    forall j: nat | j < |c.code| ensures ThreadRel(u, c', s', j) {
      assert ThreadRel(u, c, s, j);
    }
    forall t: nat | t < M.NTHREAD ensures Apart(u, c', t) {
      assert Apart(u, c, t);
      if M.Th(c.ms, u.p, t).wait in u.ids { StillLocking(c, c', t); }
    }
    forall i: nat, j: nat | i < |c.code| && j < |c.code| ensures OneEach(c', i, j) {
      assert OneEach(c, i, j);
    }
  }

  /** A thread about to lock its next level runs, and does not hold that level yet. */
  lemma ClimberFacts(u: Setup, c: System, s: T.State, i: nat, k: nat)
    requires Rel(u, c, s) && i < |c.code| && c.code[i] == Climb(k)
    ensures M.Runs(c.ms, u.p, c.at[i]) && s.pc[i] == T.Climb(k) && T.Enabled(s, T.Lock(i))
    ensures var m := MutexAt(u, i, k);
            M.Usable(c.ms, u.p, m) && c.ms.mutexes[m].tid != c.at[i]
            && (c.ms.mutexes[m].locked <==> T.OwnerAt(s, i, k) != -1)
  {
    T.NodeRange(u.depth, i, k);
    var n := T.Node(u.depth, i, k);
    assert ThreadRel(u, c, s, i) && NodeRel(u, c, s, n) && T.HoldsOk(s, i, k);
    assert M.ThreadOk(c.ms, u.p, c.at[i]) && M.MutexOk(c.ms, u.ids[n]);
    if s.owner[n] != -1 {
      OwnerInside(u, c, s, n);
      assert OneEach(c, i, s.owner[n]);
    }
  }

  lemma LockApart(u: Setup, c: System, s: T.State, i: nat)
    requires Rel(u, c, s) && Enabled(u, c, CallLock(i))
    ensures forall x: nat :: x < M.NTHREAD ==> Apart(u, Step(u, c, CallLock(i)), x)
    ensures forall a: nat, b: nat :: a < |c.code| && b < |c.code| ==> OneEach(Step(u, c, CallLock(i)), a, b)
  {
    var k := c.code[i].k;
    ClimberFacts(u, c, s, i, k);
    assert M.ThreadOk(c.ms, u.p, c.at[i]);
    var c' := Step(u, c, CallLock(i));
    forall x: nat | x < M.NTHREAD ensures Apart(u, c', x) {
      assert Apart(u, c, x);
      if x != c.at[i] && M.Th(c.ms, u.p, x).wait in u.ids { StillLocking(c, c', x); }
      if x == c.at[i] && M.Th(c'.ms, u.p, x).wait in u.ids { assert c'.code[i].InLock? && c'.at[i] == x; }
    }
    forall a: nat, b: nat | a < |c.code| && b < |c.code| ensures OneEach(c', a, b) {
      assert OneEach(c, a, b);
    }
  }

  lemma LockNodes(u: Setup, c: System, s: T.State, i: nat)
    requires Rel(u, c, s) && Enabled(u, c, CallLock(i)) && T.Enabled(s, T.Lock(i))
    ensures forall n: nat :: n < |u.ids| ==> NodeRel(u, Step(u, c, CallLock(i)), T.Step(s, T.Lock(i)), n)
  {
    var k := c.code[i].k;
    ClimberFacts(u, c, s, i, k);
    T.NodeRange(u.depth, i, k);
    assert M.ThreadOk(c.ms, u.p, c.at[i]);
    var c', s' := Step(u, c, CallLock(i)), T.Step(s, T.Lock(i));
    forall n: nat | n < |u.ids| ensures NodeRel(u, c', s', n) {
      assert NodeRel(u, c, s, n);
    }
  }

  lemma LockThreads(u: Setup, c: System, s: T.State, i: nat)
    requires Rel(u, c, s) && Enabled(u, c, CallLock(i)) && T.Enabled(s, T.Lock(i))
    ensures forall j: nat :: j < |c.code| ==> ThreadRel(u, Step(u, c, CallLock(i)), T.Step(s, T.Lock(i)), j)
    ensures !Step(u, c, CallLock(i)).failed
  {
    var k := c.code[i].k;
    ClimberFacts(u, c, s, i, k);
    assert M.ThreadOk(c.ms, u.p, c.at[i]);
    var c', s' := Step(u, c, CallLock(i)), T.Step(s, T.Lock(i));
    forall j: nat | j < |c.code| ensures ThreadRel(u, c', s', j) {
      assert ThreadRel(u, c, s, j) && OneEach(c, i, j);
    }
  }

  lemma LockSim(u: Setup, c: System, s: T.State, i: nat)
    requires Rel(u, c, s) && Enabled(u, c, CallLock(i))
    ensures T.Enabled(s, T.Lock(i)) && Rel(u, Step(u, c, CallLock(i)), T.Step(s, T.Lock(i)))
  {
    var k := c.code[i].k;
    ClimberFacts(u, c, s, i, k);
    T.NodeRange(u.depth, i, k);
    var n, m, t := T.Node(u.depth, i, k), MutexAt(u, i, k), c.at[i];
    T.StepInv(s, T.Lock(i));
    M.LockInv(c.ms, u.p, t, m);
    var c', s' := Step(u, c, CallLock(i)), T.Step(s, T.Lock(i));
    assert M.ThreadOk(c.ms, u.p, t);
    LockNodes(u, c, s, i);
    LockThreads(u, c, s, i);
    LockApart(u, c, s, i);
  }

  /** A thread that runs again inside its lock call has been handed the mutex. */
  lemma WakerFacts(u: Setup, c: System, s: T.State, i: nat)
    requires Rel(u, c, s) && Enabled(u, c, WakeUp(i))
    ensures var k := c.code[i].k;
            && s.pc[i] == T.Granted(k) && ThreadOf(u, c, i).wait == MutexAt(u, i, k) && !ThreadOf(u, c, i).blocked
            && c.ms.mutexes[MutexAt(u, i, k)].locked && c.ms.mutexes[MutexAt(u, i, k)].tid == c.at[i]
  {
    assert ThreadRel(u, c, s, i) && M.ThreadOk(c.ms, u.p, c.at[i]);
  }

  lemma WakeSim(u: Setup, c: System, s: T.State, i: nat)
    requires Rel(u, c, s) && Enabled(u, c, WakeUp(i))
    ensures T.Enabled(s, T.Resume(i)) && Rel(u, Step(u, c, WakeUp(i)), T.Step(s, T.Resume(i)))
  {
    WakerFacts(u, c, s, i);
    T.StepInv(s, T.Resume(i));
    M.ResumeInv(c.ms, u.p, c.at[i]);
    var c', s' := Step(u, c, WakeUp(i)), T.Step(s, T.Resume(i));
    assert c'.ms.mutexes == c.ms.mutexes;
    forall n: nat | n < |u.ids| ensures NodeRel(u, c', s', n) {
      assert NodeRel(u, c, s, n);
    }
    forall j: nat | j < |c.code| ensures ThreadRel(u, c', s', j) {
      assert ThreadRel(u, c, s, j) && OneEach(c, i, j);
    }
    forall t: nat | t < M.NTHREAD ensures Apart(u, c', t) {
      assert Apart(u, c, t);
      if t != c.at[i] && M.Th(c.ms, u.p, t).wait in u.ids { StillLocking(c, c', t); }
    }
    forall a: nat, b: nat | a < |c.code| && b < |c.code| ensures OneEach(c', a, b) {
      assert OneEach(c, a, b);
    }
  }

  /** A thread about to unlock a level runs and holds the mutex. */
  lemma HolderFacts(u: Setup, c: System, s: T.State, i: nat, k: nat)
    requires Rel(u, c, s) && i < |c.code| && c.code[i] == Descend(k)
    ensures M.Runs(c.ms, u.p, c.at[i]) && s.pc[i] == T.Descend(k)
    ensures var m := MutexAt(u, i, k);
            M.Usable(c.ms, u.p, m) && c.ms.mutexes[m].tid == c.at[i] && c.ms.mutexes[m].locked && T.OwnerAt(s, i, k) == i
  {
    T.NodeRange(u.depth, i, k);
    var n := T.Node(u.depth, i, k);
    assert ThreadRel(u, c, s, i) && NodeRel(u, c, s, n) && T.HoldsOk(s, i, k);
    assert M.ThreadOk(c.ms, u.p, c.at[i]) && M.MutexOk(c.ms, u.ids[n]);
  }

  /** The kernel's waiters for a node's mutex are the tree machine's waiters at the node. */
  lemma WaiterIs(u: Setup, c: System, s: T.State, n: nat, t: nat) returns (w: nat)
    requires Rel(u, c, s) && n < |u.ids| && t < M.NTHREAD
    requires M.Th(c.ms, u.p, t).blocked && M.Th(c.ms, u.p, t).chan == u.ids[n]
    ensures w < |c.code| && c.at[w] == t && T.WaitsAt(s, w, n) && c.code[w].InLock?
  {
    assert Apart(u, c, t) && M.ThreadOk(c.ms, u.p, t);
    assert Locking(c, t);
    w :| w < |c.code| && c.code[w].InLock? && c.at[w] == t;
    assert ThreadRel(u, c, s, w);
    T.NodeRange(u.depth, w, c.code[w].k);
  }

  lemma WaiterBlocked(u: Setup, c: System, s: T.State, n: nat, w: nat)
    requires Rel(u, c, s) && n < |u.ids| && w < |c.code| && T.WaitsAt(s, w, n)
    ensures ThreadOf(u, c, w).blocked && ThreadOf(u, c, w).chan == u.ids[n]
  {
    assert ThreadRel(u, c, s, w) && M.ThreadOk(c.ms, u.p, c.at[w]);
    T.NodeRange(u.depth, w, s.pc[w].k);
  }

  /** The kernel's search after thread `i` ends at thread `w`, or (-1) finds nobody. */
  predicate HandsTo(u: Setup, c: System, i: nat, k: nat, w: int)
    requires Shape(u, c) && i < |c.code| && k < u.depth
  {
    var d := M.Scan(c.ms.procs[u.p].threads, MutexAt(u, i, k), c.at[i], 1);
    if w == -1 then d == M.NTHREAD
    else 0 <= w < |c.code| && w != i && d < M.NTHREAD && c.at[w] == M.Cyclic(c.at[i], d) && c.code[w].InLock?
  }

  /** Whom the kernel hands the mutex to, as the tree machine sees it. */
  lemma HandoffIs(u: Setup, c: System, s: T.State, i: nat, k: nat) returns (w: int)
    requires Rel(u, c, s) && i < |c.code| && c.code[i] == Descend(k)
    ensures T.Enabled(s, T.Unlock(i, w)) && HandsTo(u, c, i, k, w)
  {
    HolderFacts(u, c, s, i, k);
    T.NodeRange(u.depth, i, k);
    var n, m, t := T.Node(u.depth, i, k), MutexAt(u, i, k), c.at[i];
    var d := M.Scan(c.ms.procs[u.p].threads, m, t, 1);
    if d < M.NTHREAD {
      w := WaiterIs(u, c, s, n, M.Cyclic(t, d));
    } else {
      w := -1;
      forall j: nat | j < |s.pc| ensures !T.WaitsAt(s, j, n) {
        if T.WaitsAt(s, j, n) {
          WaiterBlocked(u, c, s, n, j);
          M.ScanReaches(c.ms.procs[u.p].threads, m, t, c.at[j]);
          assert false;
        }
      }
    }
  }

  ghost predicate UnlockedThread(u: Setup, c: System, c': System, w: int, x: nat)
    requires Shape(u, c) && Shape(u, c') && x < M.NTHREAD && -1 <= w < |c.code|
  {
    var (y, y') := (M.Th(c.ms, u.p, x), M.Th(c'.ms, u.p, x));
    y'.slot == y.slot && y'.wait == y.wait && y'.blocked == (y.blocked && !(w != -1 && x == c.at[w]))
  }

  /** What unlocking level `k` does to the kernel. */
  lemma KernelUnlock(u: Setup, c: System, s: T.State, i: nat, k: nat, w: int)
    requires Rel(u, c, s) && i < |c.code| && c.code[i] == Descend(k) && HandsTo(u, c, i, k, w)
    ensures var c', m := Step(u, c, CallUnlock(i)), MutexAt(u, i, k);
            && !c'.failed && c'.tid == c.tid && c'.at == c.at && c'.code == c.code[i := Below(k)]
            && c'.ms.mutexes == c.ms.mutexes[m := M.Mutex(true, w != -1, if w == -1 then -1 else c.at[w])]
            && c'.ms.procs[u.p].mid == c.ms.procs[u.p].mid
    ensures var c' := Step(u, c, CallUnlock(i));
            forall x: nat :: x < M.NTHREAD ==> UnlockedThread(u, c, c', w, x)
  {
    HolderFacts(u, c, s, i, k);
  }

  /** And what it does to the tree machine. */
  lemma TreeUnlock(s: T.State, i: nat, k: nat, w: int)
    requires T.Inv(s) && T.Enabled(s, T.Unlock(i, w)) && s.pc[i] == T.Descend(k) && w != i
    ensures T.Node(s.depth, i, k) < |s.owner|
    ensures var s' := T.Step(s, T.Unlock(i, w));
            && s'.depth == s.depth && s'.tid == s.tid && s'.owner == s.owner[T.Node(s.depth, i, k) := w]
            && |s'.pc| == |s.pc| && s'.pc[i] == T.Below(k)
            && (forall j :: 0 <= j < |s.pc| && j != i && j != w ==> s'.pc[j] == s.pc[j])
            && (w != -1 ==> s.pc[w].Wait? && s'.pc[w] == T.Granted(s.pc[w].k))
  {
    T.NodeRange(s.depth, i, k);
  }

  lemma UnlockNodes(u: Setup, c: System, s: T.State, i: nat, k: nat, w: int)
    requires Rel(u, c, s) && i < |c.code| && c.code[i] == Descend(k) && HandsTo(u, c, i, k, w)
    requires T.Enabled(s, T.Unlock(i, w)) && s.pc[i] == T.Descend(k)
    ensures forall n: nat :: n < |u.ids| ==> NodeRel(u, Step(u, c, CallUnlock(i)), T.Step(s, T.Unlock(i, w)), n)
  {
    hide Step, T.Step, T.Inv, M.Inv;
    KernelUnlock(u, c, s, i, k, w);
    TreeUnlock(s, i, k, w);
    var c', s' := Step(u, c, CallUnlock(i)), T.Step(s, T.Unlock(i, w));
    forall n: nat | n < |u.ids| ensures NodeRel(u, c', s', n) {
      assert NodeRel(u, c, s, n) && M.Registered(c'.ms, u.p, u.ids[n]) == M.Registered(c.ms, u.p, u.ids[n]);
    }
  }

  lemma UnlockThreads(u: Setup, c: System, s: T.State, i: nat, k: nat, w: int)
    requires Rel(u, c, s) && i < |c.code| && c.code[i] == Descend(k) && HandsTo(u, c, i, k, w)
    requires T.Enabled(s, T.Unlock(i, w)) && s.pc[i] == T.Descend(k)
    ensures forall j: nat :: j < |c.code| ==> ThreadRel(u, Step(u, c, CallUnlock(i)), T.Step(s, T.Unlock(i, w)), j)
    ensures forall t: nat :: t < M.NTHREAD ==> Apart(u, Step(u, c, CallUnlock(i)), t)
    ensures forall a: nat, b: nat :: a < |c.code| && b < |c.code| ==> OneEach(Step(u, c, CallUnlock(i)), a, b)
  {
    hide Step, T.Step, T.Inv, M.Inv;
    KernelUnlock(u, c, s, i, k, w);
    TreeUnlock(s, i, k, w);
    var c', s' := Step(u, c, CallUnlock(i)), T.Step(s, T.Unlock(i, w));
    forall j: nat | j < |c.code| ensures ThreadRel(u, c', s', j) {
      assert ThreadRel(u, c, s, j) && UnlockedThread(u, c, c', w, c.at[j]);
      assert w != -1 ==> OneEach(c, w, j);
    }
    forall t: nat | t < M.NTHREAD ensures Apart(u, c', t) {
      assert Apart(u, c, t) && UnlockedThread(u, c, c', w, t);
      if M.Th(c.ms, u.p, t).wait in u.ids { StillLocking(c, c', t); }
    }
    forall a: nat, b: nat | a < |c.code| && b < |c.code| ensures OneEach(c', a, b) {
      assert OneEach(c, a, b);
    }
  }

  lemma UnlockSim(u: Setup, c: System, s: T.State, i: nat) returns (w: int)
    requires Rel(u, c, s) && Enabled(u, c, CallUnlock(i))
    ensures T.Enabled(s, T.Unlock(i, w)) && Rel(u, Step(u, c, CallUnlock(i)), T.Step(s, T.Unlock(i, w)))
  {
    hide T.Step, T.Inv, M.Inv, M.UnlockStep;
    var k := c.code[i].k;
    w := HandoffIs(u, c, s, i, k);
    HolderFacts(u, c, s, i, k);
    T.StepInv(s, T.Unlock(i, w));
    M.UnlockInv(c.ms, u.p, c.at[i], MutexAt(u, i, k));
    KernelUnlock(u, c, s, i, k, w);
    TreeUnlock(s, i, k, w);
    UnlockNodes(u, c, s, i, k, w);
    UnlockThreads(u, c, s, i, k, w);
  }

  // ---- what others do leaves the tree alone ----

  /** A thread on its way through the tree is untouched; the one in the critical section is alive. */
  ghost predicate KeptAt(u: Setup, c: System, ms: M.State, i: nat)
    requires Shape(u, c) && M.Shape(ms) && i < |c.code|
  {
    if c.code[i] == Critical then M.Th(ms, u.p, c.at[i]).slot == M.Live
    else M.Th(ms, u.p, c.at[i]) == M.Th(c.ms, u.p, c.at[i])
  }

  /** What a step elsewhere may not change. */
  ghost predicate TreeKept(u: Setup, c: System, ms: M.State)
    requires Shape(u, c) && M.Shape(ms)
  {
    && (forall n :: 0 <= n < |u.ids| ==> ms.mutexes[u.ids[n]] == c.ms.mutexes[u.ids[n]]
                                         && ms.procs[u.p].mid[u.ids[n]] == c.ms.procs[u.p].mid[u.ids[n]])
    && (forall i :: 0 <= i < |c.code| && Inside(c, i) ==> KeptAt(u, c, ms, i))
    && (forall t: nat :: t < M.NTHREAD ==>
          M.Th(ms, u.p, t).wait == M.Th(c.ms, u.p, t).wait || M.Th(ms, u.p, t).wait !in u.ids)
  }

  /** The mutexes of the tree belong to its process alone. */
  lemma NotOthers(u: Setup, c: System, s: T.State, q: nat, n: nat)
    requires Rel(u, c, s) && q < M.NPROC && n < |u.ids|
    ensures M.Registered(c.ms, u.p, u.ids[n]) && c.ms.mutexes[u.ids[n]].alloc && (q != u.p ==> !M.Registered(c.ms, q, u.ids[n]))
  {
    assert NodeRel(u, c, s, n) && M.Unique(c.ms, u.p, q, u.ids[n]);
  }

  lemma ProcUsed(u: Setup, c: System, s: T.State)
    requires Rel(u, c, s)
    ensures c.ms.procs[u.p].used
  {
    T.NodeRange(u.depth, 0, u.depth - 1);
    assert NodeRel(u, c, s, 0) && M.RegOk(c.ms, u.p, u.ids[0]);
  }

  /** A thread on its way through the tree that is blocked is blocked on a mutex of the tree. */
  lemma BlockedInTree(u: Setup, c: System, s: T.State, i: nat)
    requires Rel(u, c, s) && Inside(c, i)
    ensures ThreadOf(u, c, i).slot == M.Live
    ensures c.code[i] != Critical && ThreadOf(u, c, i).blocked ==> ThreadOf(u, c, i).chan in u.ids
  {
    assert ThreadRel(u, c, s, i) && M.ThreadOk(c.ms, u.p, c.at[i]);
    if c.code[i] != Critical && ThreadOf(u, c, i).blocked {
      T.NodeRange(u.depth, i, c.code[i].k);
      assert ThreadOf(u, c, i).chan == u.ids[T.Node(u.depth, i, c.code[i].k)];
    }
  }

  lemma OtherCall(u: Setup, c: System, s: T.State, e: M.Event)
    requires Rel(u, c, s) && M.Enabled(c.ms, e) && Elsewhere(u, c, e) && (e.Lock? || e.Dealloc?)
    ensures TreeKept(u, c, M.Step(c.ms, e).s)
  {
    hide M.Inv, T.Inv, NodeRel, ThreadRel;
    forall n: nat | n < |u.ids| ensures e.p != u.p ==> !M.Registered(c.ms, e.p, u.ids[n]) {
      NotOthers(u, c, s, e.p, n);
    }
    forall i: nat | Inside(c, i) ensures KeptAt(u, c, M.Step(c.ms, e).s, i) {
      BlockedInTree(u, c, s, i);
    }
  }

  lemma OtherAlloc(u: Setup, c: System, s: T.State, e: M.Event)
    requires Rel(u, c, s) && M.Enabled(c.ms, e) && Elsewhere(u, c, e) && e.Alloc?
    ensures TreeKept(u, c, M.Step(c.ms, e).s)
  {
    hide M.Inv, T.Inv, NodeRel, ThreadRel;
    forall n: nat | n < |u.ids| ensures c.ms.mutexes[u.ids[n]].alloc {
      NotOthers(u, c, s, e.p, n);
    }
    forall i: nat | Inside(c, i) ensures KeptAt(u, c, M.Step(c.ms, e).s, i) {
      BlockedInTree(u, c, s, i);
    }
  }

  lemma NotLocking(u: Setup, c: System, e: M.Event)
    requires Shape(u, c) && Elsewhere(u, c, e) && e.p == u.p
    ensures !Locking(c, e.t)
  {
  }

  lemma OtherResume(u: Setup, c: System, s: T.State, e: M.Event)
    requires Rel(u, c, s) && M.Enabled(c.ms, e) && Elsewhere(u, c, e) && e.Resume?
    ensures TreeKept(u, c, M.Step(c.ms, e).s)
  {
    var m := M.Th(c.ms, e.p, e.t).wait;
    assert M.ThreadOk(c.ms, e.p, e.t);
    hide T.Inv, NodeRel, ThreadRel;
    forall n: nat | n < |u.ids| ensures u.ids[n] != m {
      NotOthers(u, c, s, e.p, n);
      assert e.p == u.p ==> Apart(u, c, e.t);
      if e.p == u.p && u.ids[n] == m { NotLocking(u, c, e); }
    }
    forall i: nat | Inside(c, i) ensures KeptAt(u, c, M.Step(c.ms, e).s, i) {
      BlockedInTree(u, c, s, i);
    }
  }

  lemma OtherUnlock(u: Setup, c: System, s: T.State, e: M.Event)
    requires Rel(u, c, s) && M.Enabled(c.ms, e) && Elsewhere(u, c, e) && e.Unlock?
    ensures TreeKept(u, c, M.Step(c.ms, e).s)
  {
    hide M.Inv, M.UnlockStep, T.Inv, NodeRel, ThreadRel;
    M.UnlockFrame(c.ms, e.p, e.t, e.m);
    M.UnlockKeepsSlots(c.ms, e.p, e.t, e.m);
    forall n: nat | n < |u.ids| ensures e.p != u.p ==> !M.Registered(c.ms, e.p, u.ids[n]) {
      NotOthers(u, c, s, e.p, n);
    }
    var ms := M.Step(c.ms, e).s;
    forall i: nat | Inside(c, i) ensures KeptAt(u, c, ms, i) {
      BlockedInTree(u, c, s, i);
    }
    forall t: nat | t < M.NTHREAD ensures M.Th(ms, u.p, t).wait == M.Th(c.ms, u.p, t).wait { }
  }

  lemma OtherThread(u: Setup, c: System, s: T.State, e: M.Event)
    requires Rel(u, c, s) && M.Enabled(c.ms, e) && Elsewhere(u, c, e) && (e.Create? || e.Exit? || e.Join? || e.Fork?)
    ensures TreeKept(u, c, M.Step(c.ms, e).s)
  {
    hide M.Inv, T.Inv, NodeRel, ThreadRel;
    ProcUsed(u, c, s);
    var ms := M.Step(c.ms, e).s;
    forall i: nat | Inside(c, i) ensures KeptAt(u, c, ms, i) {
      BlockedInTree(u, c, s, i);
    }
    forall t: nat | t < M.NTHREAD ensures M.Th(ms, u.p, t).wait == M.Th(c.ms, u.p, t).wait || M.Th(ms, u.p, t).wait == -1 { }
    assert -1 !in u.ids;
  }

  lemma OtherKept(u: Setup, c: System, s: T.State, e: M.Event)
    requires Rel(u, c, s) && M.Enabled(c.ms, e) && Elsewhere(u, c, e)
    ensures TreeKept(u, c, M.Step(c.ms, e).s)
  {
    hide *;
    match e {
      case Lock(_, _, _) => OtherCall(u, c, s, e);
      case Dealloc(_, _, _) => OtherCall(u, c, s, e);
      case Alloc(_, _) => OtherAlloc(u, c, s, e);
      case Resume(_, _) => OtherResume(u, c, s, e);
      case Unlock(_, _, _) => OtherUnlock(u, c, s, e);
      case _ => OtherThread(u, c, s, e);
    }
  }

  lemma OtherSim(u: Setup, c: System, s: T.State, e: M.Event)
    requires Rel(u, c, s) && M.Enabled(c.ms, e) && Elsewhere(u, c, e)
    ensures Rel(u, Step(u, c, Other(e)), s)
  {
    hide M.Step, M.Inv, M.Enabled, T.Node;
    M.StepInv(c.ms, e);
    OtherKept(u, c, s, e);
    var c' := Step(u, c, Other(e));
    forall n: nat | n < |u.ids| ensures NodeRel(u, c', s, n) {
      assert NodeRel(u, c, s, n);
    }
    forall i: nat | i < |c.code| ensures ThreadRel(u, c', s, i) {
      assert ThreadRel(u, c, s, i);
      assert Inside(c, i) ==> KeptAt(u, c, c'.ms, i);
    }
    forall t: nat | t < M.NTHREAD ensures Apart(u, c', t) {
      assert Apart(u, c, t);
      if M.Th(c.ms, u.p, t).wait in u.ids { StillLocking(c, c', t); }
    }
    forall a: nat, b: nat | a < |c.code| && b < |c.code| ensures OneEach(c', a, b) {
      assert OneEach(c, a, b);
    }
  }

  /** Forward simulation: whatever the tree code and the kernel do together, the tree machine can
      do, and no call fails. */
  lemma Simulated(u: Setup, c: System, s: T.State, a: Act) returns (e: T.Event)
    requires Rel(u, c, s) && Enabled(u, c, a) && !a.Other?
    ensures T.Enabled(s, e) && Rel(u, Step(u, c, a), T.Step(s, e))
  {
    hide Rel, Step, T.Step, T.Enabled;
    match a
    case Begin(i, _) => e := T.Begin(i); CodeStep(u, c, s, a, e);
    case Enter(i) => e := T.Enter(i); CodeStep(u, c, s, a, e);
    case Exit(i) => e := T.Exit(i); CodeStep(u, c, s, a, e);
    case CallLock(i) => e := T.Lock(i); LockSim(u, c, s, i);
    case WakeUp(i) => e := T.Resume(i); WakeSim(u, c, s, i);
    case CallUnlock(i) =>
      var w := UnlockSim(u, c, s, i);
      e := T.Unlock(i, w);
  }

  // ---- whole runs ----

  predicate StepAt(u: Setup, cs: seq<System>, acts: seq<Act>, i: nat)
    requires i < |acts| && i + 1 < |cs|
  {
    Enabled(u, cs[i], acts[i]) && cs[i + 1] == Step(u, cs[i], acts[i])
  }

  /** `cs` are the states of a run of the tree code on the kernel. */
  predicate Trace(u: Setup, cs: seq<System>, acts: seq<Act>) {
    |cs| == |acts| + 1 && forall i :: 0 <= i < |acts| ==> StepAt(u, cs, acts, i)
  }

  /** A tree just allocated by the process, with nobody inside. */
  ghost predicate Init(u: Setup, c: System) {
    && Shape(u, c) && M.Inv(c.ms) && !c.tid.written && !c.failed
    && (forall n :: 0 <= n < |u.ids| ==> M.Usable(c.ms, u.p, u.ids[n]) && !c.ms.mutexes[u.ids[n]].locked)
    && (forall i :: 0 <= i < |c.code| ==> c.code[i] == Out)
  }

  /** What trnmnt_tree_alloc leaves behind is a tree ready for use. */
  lemma AllocatedIsInit(u: Setup, c: System, s: M.State)
    requires Shape(u, c) && M.Inv(s) && M.Inv(c.ms) && T.Allocated(s, c.ms, u.p, u.ids)
    requires !c.tid.written && !c.failed
    requires forall i :: 0 <= i < |c.code| ==> c.code[i] == Out
    ensures Init(u, c)
  {
  }

  lemma InitRel(u: Setup, c: System) returns (s: T.State)
    requires Init(u, c)
    ensures T.Init(s) && Rel(u, c, s)
  {
    s := T.State(u.depth, seq(|u.ids|, n => -1), seq(|c.code|, i => T.Out), c.tid);
    T.RunInv([s], [], 0);
    forall i: nat | i < |c.code| ensures ThreadRel(u, c, s, i) {
      assert c.code[i] == Out;
    }
    forall t: nat | t < M.NTHREAD ensures Apart(u, c, t) {
      assert M.ThreadOk(c.ms, u.p, t);
    }
  }

  lemma OtherIsEnabled(u: Setup, c: System, a: Act)
    requires Enabled(u, c, a) && a.Other?
    ensures M.Enabled(c.ms, a.e) && Elsewhere(u, c, a.e)
  {
  }

  /** Every run of the tree code on the kernel, whatever other threads and processes do meanwhile,
      is a run of the tree machine. */
  lemma {:induction false} RunIsTreeRun(u: Setup, cs: seq<System>, acts: seq<Act>, k: nat)
    returns (ss: seq<T.State>, es: seq<T.Event>)
    requires Trace(u, cs, acts) && Init(u, cs[0]) && k <= |acts|
    ensures T.Trace(ss, es) && |es| <= k && T.Init(ss[0]) && Rel(u, cs[k], ss[|es|])
  {
    hide Rel, Init, Step, Enabled, T.Step, T.Enabled, T.Init;
    if k == 0 {
      var s := InitRel(u, cs[0]);
      ss, es := [s], [];
    } else {
      var ss0, es0 := RunIsTreeRun(u, cs, acts, k - 1);
      assert StepAt(u, cs, acts, k - 1);
      var (c, s, a, n) := (cs[k - 1], ss0[|es0|], acts[k - 1], |es0|);
      if a.Other? {
        OtherIsEnabled(u, c, a);
        OtherSim(u, c, s, a.e);
        ss, es := ss0, es0;
      } else {
        var e := Simulated(u, c, s, a);
        ss, es := ss0 + [T.Step(s, e)], es0 + [e];
        forall i | 0 <= i < |es| ensures T.StepAt(ss, es, i) {
          if i < n {
            assert T.StepAt(ss0, es0, i);
          }
        }
      }
    }
  }

  /** On the kernel's mutexes, in every state of every run: one thread at most is in the critical
      section, tree->tid names it, no lock or unlock call has failed, and there was no panic. */
  lemma CriticalSectionOnKernel(u: Setup, cs: seq<System>, acts: seq<Act>, k: nat, i: nat, j: nat)
    requires Trace(u, cs, acts) && Init(u, cs[0]) && k <= |acts| && i < T.Pow2(u.depth) && j < T.Pow2(u.depth)
    ensures Shape(u, cs[k]) && !cs[k].failed && !cs[k].ms.panicked
    ensures cs[k].code[i] == Critical && cs[k].code[j] == Critical ==> i == j
    ensures cs[k].code[i] == Critical ==> cs[k].tid.value == i
    ensures cs[k].tid.written ==> (cs[k].tid.value == i <==> cs[k].code[i] == Critical)
  {
    var ss, es := RunIsTreeRun(u, cs, acts, k);
    var s := ss[|es|];
    assert ThreadRel(u, cs[k], s, i) && ThreadRel(u, cs[k], s, j);
    T.CriticalSection(ss, es, |es|, i, j);
  }

  /** And whenever a thread is inside the tree, one inside can take a step of the tree code, unless
      the one in the critical section is itself waiting for some mutex that is not the tree's. */
  lemma NoDeadlockOnKernel(u: Setup, cs: seq<System>, acts: seq<Act>, k: nat, i: nat) returns (x: nat, a: Act)
    requires Trace(u, cs, acts) && Init(u, cs[0]) && k <= |acts| && Inside(cs[k], i)
    ensures Shape(u, cs[k]) && Inside(cs[k], x)
    ensures (Enabled(u, cs[k], a) && !a.Other? && a.i == x)
            || (cs[k].code[x] == Critical && ThreadOf(u, cs[k], x).wait >= 0 && ThreadOf(u, cs[k], x).wait !in u.ids)
  {
    var ss, es := RunIsTreeRun(u, cs, acts, k);
    var (c, s) := (cs[k], ss[|es|]);
    assert ThreadRel(u, c, s, i);
    var e := T.NoDeadlock(ss, es, |es|, i);
    x := e.i;
    assert ThreadRel(u, c, s, x) && M.ThreadOk(c.ms, u.p, c.at[x]) && Apart(u, c, c.at[x]);
    match c.code[x] {
      case Climb(_) => a := CallLock(x);
      case InLock(_) => a := WakeUp(x);
      case AtTop => a := Enter(x);
      case Critical =>
        a := Exit(x);
        if Locking(c, c.at[x]) {
          var j: nat :| j < |c.code| && c.code[j].InLock? && c.at[j] == c.at[x];
          assert OneEach(c, x, j);
        }
      case Descend(_) => a := CallUnlock(x);
    }
  }
}
