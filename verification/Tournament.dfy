/** tournament_tree.c: a binary tree of mutexes climbed from a leaf to the root. */
module Tournament {
  import M = Mutexes

  function Pow2(k: nat): (r: nat)
    ensures r >= 1
  {
    if k == 0 then 1 else 2 * Pow2(k - 1)
  }

  /** `x` halved `k` times. */
  function Halves(x: nat, k: nat): (r: nat) {
    if k == 0 then x else Halves(x, k - 1) / 2
  }

  lemma {:induction false} HalvesBound(x: nat, d: nat, k: nat)
    requires k <= d
    ensures x < Pow2(d) <==> Halves(x, k) < Pow2(d - k)
  {
    if k > 0 {
      HalvesBound(x, d, k - 1);
      assert Pow2(d - (k - 1)) == 2 * Pow2(d - k);
    }
  }

  lemma {:induction false} Pow2Grows(a: nat, b: nat)
    requires a <= b
    ensures Pow2(a) <= Pow2(b)
  {
    if a < b {
      Pow2Grows(a, b - 1);
    }
  }

  // ---- indices ----

  function Size(depth: nat): (n: nat) {
    Pow2(depth) - 1
  }

  /** `(2 << (depth - 1)) - 1` in 32 bits, where the shift counts modulo 32. */
  function TreeSize(depth: nat): (n: int)
    requires depth >= 1
  {
    var e := (depth - 1) % 32;
    if e == 31 then -1 else 2 * Pow2(e) - 1
  }

  /** The tree has the nodes its depth calls for up to depth 31. */
  lemma TreeSizeRight(depth: nat)
    requires depth >= 1
    ensures TreeSize(depth) == Size(depth) <==> depth <= 31
  {
    var e := (depth - 1) % 32;
    if depth <= 31 {
      assert e == depth - 1;
    } else if e < 31 {
      Pow2Grows(e + 2, depth);
      assert Pow2(e + 2) == 2 * Pow2(e + 1) == 4 * Pow2(e);
    }
  }

  /** Where acquire and release enter the tree. */
  function Leaf(depth: nat, id: nat): (i: nat)
    requires depth >= 1
  {
    (Size(depth) + id - 1) / 2
  }

  function Parent(i: nat): (r: nat)
    requires i > 0
    ensures r < i
  {
    (i - 1) / 2
  }

  /** The nodes trnmnt_tree_acquire_helper locks, in order. */
  function AcquireOrder(index: nat): (r: seq<nat>)
    decreases index
  {
    if index == 0 then [0] else [index] + AcquireOrder(Parent(index))
  }

  /** The nodes trnmnt_tree_release_helper unlocks, in order. */
  function ReleaseOrder(index: nat): (r: seq<nat>)
    decreases index
  {
    if index == 0 then [0] else ReleaseOrder(Parent(index)) + [index]
  }

  /** The node at level `k` on the way up of thread `id`; level 0 is its leaf. */
  function Node(depth: nat, id: nat, k: nat): (n: nat)
    requires k < depth
  {
    Pow2(depth - 1 - k) - 1 + Halves(id, k + 1)
  }

  lemma LeafIsNode(depth: nat, id: nat)
    requires depth >= 1
    ensures Leaf(depth, id) == Node(depth, id, 0)
  {
    assert Pow2(depth) == 2 * Pow2(depth - 1) && Halves(id, 1) == Halves(id, 0) / 2;
  }

  lemma ParentIsNode(depth: nat, id: nat, k: nat)
    requires k + 1 < depth
    ensures Node(depth, id, k) > 0 && Parent(Node(depth, id, k)) == Node(depth, id, k + 1)
  {
    assert Pow2(depth - 1 - k) == 2 * Pow2(depth - 2 - k);
  }

  /** Level `k` occupies its own range of indices, inside the tree exactly when the id is below
      2^depth. */
  lemma NodeRange(depth: nat, id: nat, k: nat)
    requires k < depth
    ensures Pow2(depth - 1 - k) - 1 <= Node(depth, id, k)
    ensures id < Pow2(depth) <==> Node(depth, id, k) < Pow2(depth - k) - 1
    ensures id < Pow2(depth) ==> Node(depth, id, k) < Size(depth) && (k == depth - 1 ==> Node(depth, id, k) == 0)
  {
    HalvesBound(id, depth, k + 1);
    Pow2Grows(depth - k, depth);
    assert Pow2(depth - k) == 2 * Pow2(depth - 1 - k);
  }

  /** The leaf is in the tree exactly when the id is below 2^depth. */
  lemma LeafInRange(depth: nat, id: nat)
    requires depth >= 1
    ensures Leaf(depth, id) < Size(depth) <==> id < Pow2(depth)
  {
    LeafIsNode(depth, id);
    NodeRange(depth, id, 0);
  }

  lemma LevelsDiffer(depth: nat, a: nat, j: nat, b: nat, k: nat)
    requires j < depth && k < depth && a < Pow2(depth) && b < Pow2(depth) && Node(depth, a, j) == Node(depth, b, k)
    ensures j == k
  {
    NodeRange(depth, a, j);
    NodeRange(depth, b, k);
    if j < k {
      Pow2Grows(depth - k, depth - 1 - j);
    } else if k < j {
      Pow2Grows(depth - j, depth - 1 - k);
    }
  }

  /** acquire locks the thread's path from the leaf to the root, every index in the tree. */
  lemma {:induction false} AcquireFollowsPath(depth: nat, id: nat, k: nat)
    requires k < depth && id < Pow2(depth)
    ensures AcquireOrder(Node(depth, id, k)) == seq(depth - k, i requires 0 <= i < depth - k => Node(depth, id, k + i))
    decreases depth - k
  {
    NodeRange(depth, id, k);
    if k + 1 < depth {
      ParentIsNode(depth, id, k);
      AcquireFollowsPath(depth, id, k + 1);
    }
  }

  /** release unlocks the same nodes in the opposite order, root first. */
  lemma {:induction false} ReleaseIsReverse(index: nat)
    ensures |ReleaseOrder(index)| == |AcquireOrder(index)|
    ensures forall i :: 0 <= i < |AcquireOrder(index)| ==>
              ReleaseOrder(index)[i] == AcquireOrder(index)[|AcquireOrder(index)| - 1 - i]
    decreases index
  {
    if index > 0 {
      ReleaseIsReverse(Parent(index));
    }
  }

  /** For a valid id: acquire takes levels 0, 1, ..., depth - 1 and release gives them back from
      the root down. */
  lemma PathOrders(depth: nat, id: nat)
    requires depth >= 1 && id < Pow2(depth)
    ensures |AcquireOrder(Leaf(depth, id))| == depth == |ReleaseOrder(Leaf(depth, id))|
    ensures forall k :: 0 <= k < depth ==> AcquireOrder(Leaf(depth, id))[k] == Node(depth, id, k)
    ensures forall k :: 0 <= k < depth ==> ReleaseOrder(Leaf(depth, id))[k] == Node(depth, id, depth - 1 - k)
  {
    LeafIsNode(depth, id);
    AcquireFollowsPath(depth, id, 0);
    ReleaseIsReverse(Leaf(depth, id));
  }

  // ---- threads climbing the tree ----

  /** Where a thread is, by level of its path. */
  datatype Pc =
    | Out
    | Climb(k: nat)       // about to lock level k
    | Wait(k: nat)        // blocked on level k
    | Granted(k: nat)     // handed level k, not yet running
    | AtTop               // all levels locked, tree->tid not yet written
    | Critical
    | Descend(k: nat)     // about to unlock level k

  /** tree->tid, and whether it has been written: trnmnt_tree_alloc leaves it as malloc found it. */
  datatype Tid = Tid(value: int, written: bool)

  /** `owner[n]` is the id of the thread holding node n's mutex, -1 if free. */
  datatype State = State(depth: nat, owner: seq<int>, pc: seq<Pc>, tid: Tid)

  predicate LevelOk(depth: nat, x: Pc) {
    x.Climb? || x.Wait? || x.Granted? || x.Descend? ==> x.k < depth
  }

  predicate Shape(s: State) {
    && s.depth >= 1 && |s.pc| == Pow2(s.depth) && |s.owner| == Size(s.depth)
    && forall i :: 0 <= i < |s.pc| ==> LevelOk(s.depth, s.pc[i])
  }

  /** How many levels, counted from the leaf, the thread holds. */
  function Height(depth: nat, x: Pc): (h: nat) {
    match x
    case Out => 0
    case Climb(k) => k
    case Wait(k) => k
    case Granted(k) => k + 1
    case AtTop => depth
    case Critical => depth
    case Descend(k) => k + 1
  }

  datatype Event = Begin(i: nat) | Lock(i: nat) | Resume(i: nat) | Enter(i: nat) | Exit(i: nat) | Unlock(i: nat, w: int)

  /** The thread is blocked on node `n`. */
  predicate WaitsAt(s: State, i: nat, n: nat)
    requires Shape(s) && i < |s.pc|
  {
    s.pc[i].Wait? && Node(s.depth, i, s.pc[i].k) == n
  }

  /** unlock hands the node to a waiter `w` if there is one, and frees it (`w` = -1) if not. */
  predicate HandsTo(s: State, n: nat, w: int)
    requires Shape(s)
  {
    if w == -1 then forall i :: 0 <= i < |s.pc| ==> !WaitsAt(s, i, n)
    else 0 <= w < |s.pc| && WaitsAt(s, w, n)
  }

  predicate Enabled(s: State, e: Event) {
    && Shape(s) && e.i < |s.pc|
    && match e
       case Begin(i) => s.pc[i] == Out
       case Lock(i) => s.pc[i].Climb?
       case Resume(i) => s.pc[i].Granted?
       case Enter(i) => s.pc[i] == AtTop
       case Exit(i) => s.pc[i] == Critical
       case Unlock(i, w) => s.pc[i].Descend? && HandsTo(s, Node(s.depth, i, s.pc[i].k), w)
  }

  function Above(depth: nat, k: nat): (r: Pc)
    requires k < depth
    ensures LevelOk(depth, r) && Height(depth, r) == k + 1
  {
    if k == depth - 1 then AtTop else Climb(k + 1)
  }

  function Below(k: nat): (r: Pc)
    ensures forall d :: k < d ==> LevelOk(d, r) && Height(d, r) == k
  {
    if k == 0 then Out else Descend(k - 1)
  }

  function Put(s: State, i: nat, x: Pc): (r: State)
    requires Shape(s) && i < |s.pc| && LevelOk(s.depth, x)
    ensures Shape(r)
  {
    s.(pc := s.pc[i := x])
  }

  function Own(s: State, i: nat, k: nat, w: int): (r: State)
    requires Shape(s) && i < |s.pc| && k < s.depth
    ensures Shape(r)
  {
    NodeRange(s.depth, i, k);
    s.(owner := s.owner[Node(s.depth, i, k) := w])
  }

  /** The owner of level `k` of thread `i`'s path. */
  function OwnerAt(s: State, i: nat, k: nat): (w: int)
    requires Shape(s) && i < |s.pc| && k < s.depth
  {
    NodeRange(s.depth, i, k);
    s.owner[Node(s.depth, i, k)]
  }

  function Step(s: State, e: Event): (r: State)
    requires Enabled(s, e)
    ensures Shape(r)
  {
    match e
    case Begin(i) => Put(s, i, Climb(0))
    case Lock(i) =>
      var k := s.pc[i].k;
      if OwnerAt(s, i, k) == -1 then Own(Put(s, i, Above(s.depth, k)), i, k, i) else Put(s, i, Wait(k))
    case Resume(i) => Put(s, i, Above(s.depth, s.pc[i].k))
    case Enter(i) => Put(s, i, Critical).(tid := Tid(i, true))
    case Exit(i) => Put(s, i, Descend(s.depth - 1)).(tid := Tid(-1, true))
    case Unlock(i, w) =>
      var k := s.pc[i].k;
      var s1 := Own(Put(s, i, Below(k)), i, k, w);
      if w == -1 then s1 else Put(s1, w, Granted(s.pc[w].k))
  }

  // ---- the invariant ----

  /** Thread `i` owns level `k` of its path exactly when it is below its height. */
  ghost predicate HoldsOk(s: State, i: nat, k: nat)
    requires Shape(s) && i < |s.pc| && k < s.depth
  {
    OwnerAt(s, i, k) == i <==> k < Height(s.depth, s.pc[i])
  }

  /** A node's owner has the node on its path. */
  ghost predicate OwnerOk(s: State, n: nat)
    requires Shape(s) && n < |s.owner|
  {
    s.owner[n] == -1
    || (0 <= s.owner[n] < |s.pc| && exists k: nat :: k < s.depth && Node(s.depth, s.owner[n], k) == n)
  }

  ghost predicate ThreadOk(s: State, i: nat)
    requires Shape(s) && i < |s.pc|
  {
    && (s.pc[i].Wait? ==> OwnerAt(s, i, s.pc[i].k) != -1)
    && (s.tid == Tid(i, true) <==> s.pc[i] == Critical)
  }

  ghost predicate Inv(s: State) {
    && Shape(s)
    && (forall i: nat, k: nat :: i < |s.pc| && k < s.depth ==> HoldsOk(s, i, k))
    && (forall n: nat :: n < |s.owner| ==> OwnerOk(s, n))
    && (forall i: nat :: i < |s.pc| ==> ThreadOk(s, i))
    && (s.tid.written ==> -1 <= s.tid.value < |s.pc|)
  }

  /** The root excludes: at most one thread is at the top. */
  lemma RootExcludes(s: State, i: nat, j: nat)
    requires Inv(s) && i < |s.pc| && j < |s.pc|
    requires Height(s.depth, s.pc[i]) == s.depth && Height(s.depth, s.pc[j]) == s.depth
    ensures i == j
  {
    assert HoldsOk(s, i, s.depth - 1) && HoldsOk(s, j, s.depth - 1);
    NodeRange(s.depth, i, s.depth - 1);
    NodeRange(s.depth, j, s.depth - 1);
  }

  /** Steps that change one thread, keep its height and leave the owners alone. */
  lemma MoveInv(s: State, i: nat, x: Pc, tid: Tid)
    requires Inv(s) && i < |s.pc| && LevelOk(s.depth, x) && Height(s.depth, x) == Height(s.depth, s.pc[i])
    requires x.Wait? ==> OwnerAt(s, i, x.k) != -1
    requires tid == if x == Critical then Tid(i, true) else if s.pc[i] == Critical then Tid(-1, true) else s.tid
    ensures Inv(Put(s, i, x).(tid := tid))
  {
    var s' := Put(s, i, x).(tid := tid);
    forall j: nat, k: nat | j < |s.pc| && k < s.depth ensures HoldsOk(s', j, k) {
      assert HoldsOk(s, j, k);
    }
    forall n: nat | n < |s.owner| ensures OwnerOk(s', n) {
      assert OwnerOk(s, n);
    }
    forall j: nat | j < |s.pc| ensures ThreadOk(s', j) {
      assert ThreadOk(s, j) && ThreadOk(s, i);
      if j != i && x == Critical && s.pc[j] == Critical {
        RootExcludes(s, i, j);
      }
    }
  }

  /** Taking a free node: the next level of the thread's path. */
  lemma TakeInv(s: State, i: nat, k: nat)
    requires Inv(s) && i < |s.pc| && s.pc[i] == Climb(k) && OwnerAt(s, i, k) == -1
    ensures Inv(Own(Put(s, i, Above(s.depth, k)), i, k, i))
  {
    var s' := Own(Put(s, i, Above(s.depth, k)), i, k, i);
    var n := Node(s.depth, i, k);
    forall j: nat, l: nat | j < |s.pc| && l < s.depth ensures HoldsOk(s', j, l) {
      assert HoldsOk(s, j, l) && HoldsOk(s, i, l) && HoldsOk(s, j, k);
      NodeRange(s.depth, j, l);
      if Node(s.depth, j, l) == n {
        LevelsDiffer(s.depth, j, l, i, k);
      }
    }
    forall m: nat | m < |s.owner| ensures OwnerOk(s', m) {
      assert OwnerOk(s, m);
    }
    forall j: nat | j < |s.pc| ensures ThreadOk(s', j) {
      assert ThreadOk(s, j);
      if s.pc[j].Wait? {
        NodeRange(s.depth, j, s.pc[j].k);
        assert OwnerAt(s, j, s.pc[j].k) != -1;
      }
    }
  }

  lemma UnlockHolds(s: State, i: nat, w: int, j: nat, l: nat)
    requires Inv(s) && Enabled(s, Unlock(i, w)) && j < |s.pc| && l < s.depth
    ensures HoldsOk(Step(s, Unlock(i, w)), j, l)
  {
    var s', k := Step(s, Unlock(i, w)), s.pc[i].k;
    assert HoldsOk(s, j, l) && HoldsOk(s, i, l) && HoldsOk(s, i, k) && HoldsOk(s, j, k);
    if w != -1 {
      LevelsDiffer(s.depth, i, k, w, s.pc[w].k);
      assert HoldsOk(s, w, l) && HoldsOk(s, w, k);
    }
    NodeRange(s.depth, j, l);
    if Node(s.depth, j, l) == Node(s.depth, i, k) {
      LevelsDiffer(s.depth, j, l, i, k);
    }
  }

  lemma UnlockInv(s: State, i: nat, w: int)
    requires Inv(s) && Enabled(s, Unlock(i, w))
    ensures Inv(Step(s, Unlock(i, w)))
  {
    var s', k := Step(s, Unlock(i, w)), s.pc[i].k;
    forall j: nat, l: nat | j < |s.pc| && l < s.depth ensures HoldsOk(s', j, l) {
      UnlockHolds(s, i, w, j, l);
    }
    forall m: nat | m < |s.owner| ensures OwnerOk(s', m) {
      assert OwnerOk(s, m);
      if m == Node(s.depth, i, k) && w != -1 {
        assert Node(s.depth, w, s.pc[w].k) == m;
      }
    }
    forall j: nat | j < |s.pc| ensures ThreadOk(s', j) {
      assert ThreadOk(s, j);
      if s.pc[j].Wait? {
        assert !WaitsAt(s, j, Node(s.depth, i, k)) || w != -1;
        NodeRange(s.depth, j, s.pc[j].k);
        assert OwnerAt(s, j, s.pc[j].k) != -1;
      }
    }
  }

  lemma StepInv(s: State, e: Event)
    requires Inv(s) && Enabled(s, e)
    ensures Inv(Step(s, e))
  {
    assert ThreadOk(s, e.i);
    match e
    case Begin(i) => MoveInv(s, i, Climb(0), s.tid);
    case Lock(i) =>
      if OwnerAt(s, i, s.pc[i].k) == -1 {
        TakeInv(s, i, s.pc[i].k);
      } else {
        MoveInv(s, i, Wait(s.pc[i].k), s.tid);
      }
    case Resume(i) => MoveInv(s, i, Above(s.depth, s.pc[i].k), s.tid);
    case Enter(i) => MoveInv(s, i, Critical, Tid(i, true));
    case Exit(i) => MoveInv(s, i, Descend(s.depth - 1), Tid(-1, true));
    case Unlock(i, w) => UnlockInv(s, i, w);
  }

  // ---- whole runs ----

  predicate StepAt(ss: seq<State>, es: seq<Event>, i: nat)
    requires i < |es| && i + 1 < |ss|
  {
    Enabled(ss[i], es[i]) && ss[i + 1] == Step(ss[i], es[i])
  }

  predicate Trace(ss: seq<State>, es: seq<Event>) {
    |ss| == |es| + 1 && forall i :: 0 <= i < |es| ==> StepAt(ss, es, i)
  }

  /** A tree just allocated, every thread outside. */
  predicate Init(s: State) {
    && Shape(s) && !s.tid.written
    && (forall n :: 0 <= n < |s.owner| ==> s.owner[n] == -1)
    && (forall i :: 0 <= i < |s.pc| ==> s.pc[i] == Out)
  }

  lemma {:induction false} RunInv(ss: seq<State>, es: seq<Event>, k: nat)
    requires Trace(ss, es) && Init(ss[0]) && k < |ss|
    ensures Inv(ss[k])
  {
    if k == 0 {
      forall i: nat, l: nat | i < |ss[0].pc| && l < ss[0].depth ensures HoldsOk(ss[0], i, l) {
        NodeRange(ss[0].depth, i, l);
      }
    } else {
      RunInv(ss, es, k - 1);
      assert StepAt(ss, es, k - 1);
      hide Inv, Step, Enabled;
      StepInv(ss[k - 1], es[k - 1]);
    }
  }

  /** In every reachable state at most one thread is in the critical section, and tree->tid is its
      id; once tree->tid has been written it is -1 whenever there is none. */
  lemma CriticalSection(ss: seq<State>, es: seq<Event>, k: nat, i: nat, j: nat)
    requires Trace(ss, es) && Init(ss[0]) && k < |ss| && i < |ss[k].pc| && j < |ss[k].pc|
    ensures ss[k].pc[i] == Critical && ss[k].pc[j] == Critical ==> i == j
    ensures ss[k].pc[i] == Critical ==> ss[k].tid.value == i
    ensures ss[k].tid.written ==> (ss[k].tid.value == i <==> ss[k].pc[i] == Critical)
    ensures ss[k].tid.written ==> -1 <= ss[k].tid.value < |ss[k].pc|
  {
    RunInv(ss, es, k);
    assert ThreadOk(ss[k], i) && ThreadOk(ss[k], j);
  }

  /** A tree can start with any tree->tid: until it is first written it may name a thread that is
      not in the critical section. */
  lemma TidStartsUnset(depth: nat, garbage: int) returns (s: State)
    requires depth >= 1
    ensures Init(s) && s.depth == depth && s.tid.value == garbage
    ensures forall i :: 0 <= i < |s.pc| ==> s.pc[i] != Critical
  {
    s := State(depth, seq(Size(depth), _ => -1), seq(Pow2(depth), _ => Out), Tid(garbage, false));
  }

  /** In every reachable state a thread holds a leaf-side prefix of its path and nothing else. */
  lemma HeldIsPrefix(ss: seq<State>, es: seq<Event>, k: nat, i: nat, n: nat)
    requires Trace(ss, es) && Init(ss[0]) && k < |ss| && i < |ss[k].pc| && n < |ss[k].owner|
    ensures Shape(ss[k])
    ensures var s := ss[k];
            s.owner[n] == i <==> exists l: nat :: l < s.depth && l < Height(s.depth, s.pc[i]) && Node(s.depth, i, l) == n
  {
    RunInv(ss, es, k);
    var s := ss[k];
    assert OwnerOk(s, n);
    if s.owner[n] == i {
      var l: nat :| l < s.depth && Node(s.depth, i, l) == n;
      assert HoldsOk(s, i, l);
    }
    forall l: nat | l < s.depth && l < Height(s.depth, s.pc[i]) && Node(s.depth, i, l) == n ensures s.owner[n] == i {
      assert HoldsOk(s, i, l);
    }
  }

  /** The thread holds node `n` or is blocked on it. */
  ghost predicate At(s: State, i: nat, n: nat)
    requires Shape(s) && i < |s.pc| && n < |s.owner|
  {
    s.owner[n] == i || WaitsAt(s, i, n)
  }

  /** Which child of its level-`k` node a thread comes from. */
  function Side(i: nat, k: nat): (r: nat) {
    Halves(i, k) % 2
  }

  lemma SameSide(depth: nat, i: nat, j: nat, k: nat)
    requires k < depth && Node(depth, i, k) == Node(depth, j, k) && Side(i, k) == Side(j, k)
    ensures Halves(i, k) == Halves(j, k)
    ensures k > 0 ==> Node(depth, i, k - 1) == Node(depth, j, k - 1)
  {
    assert Halves(i, k + 1) == Halves(i, k) / 2 && Halves(j, k + 1) == Halves(j, k) / 2;
  }

  lemma AtLevel(s: State, i: nat, n: nat) returns (k: nat)
    requires Inv(s) && i < |s.pc| && n < |s.owner| && At(s, i, n)
    ensures k < s.depth && Node(s.depth, i, k) == n && (k > 0 ==> OwnerAt(s, i, k - 1) == i)
  {
    assert OwnerOk(s, n);
    if s.owner[n] == i {
      k :| k < s.depth && Node(s.depth, i, k) == n;
      assert HoldsOk(s, i, k);
    } else {
      k := s.pc[i].k;
    }
    if k > 0 {
      assert HoldsOk(s, i, k - 1);
    }
  }

  /** Two threads at one node that come from the same child are one thread. */
  lemma OnePerSide(s: State, i: nat, j: nat, n: nat)
    requires Inv(s) && i < |s.pc| && j < |s.pc| && n < |s.owner| && At(s, i, n) && At(s, j, n) && i != j
    ensures exists k: nat :: k < s.depth && Node(s.depth, i, k) == n == Node(s.depth, j, k) && Side(i, k) != Side(j, k)
  {
    var k := AtLevel(s, i, n);
    var l := AtLevel(s, j, n);
    LevelsDiffer(s.depth, i, k, j, l);
    if Side(i, k) == Side(j, k) {
      SameSide(s.depth, i, j, k);
    }
  }

  /** In every reachable state at most two threads hold or wait at any node. */
  lemma AtMostTwo(ss: seq<State>, es: seq<Event>, k: nat, a: nat, b: nat, c: nat, n: nat)
    requires Trace(ss, es) && Init(ss[0]) && k < |ss| && a < |ss[k].pc| && b < |ss[k].pc| && c < |ss[k].pc|
    requires n < |ss[k].owner| && a != b && b != c && a != c
    ensures Shape(ss[k]) && !(At(ss[k], a, n) && At(ss[k], b, n) && At(ss[k], c, n))
  {
    RunInv(ss, es, k);
    var s := ss[k];
    if At(s, a, n) && At(s, b, n) && At(s, c, n) {
      OnePerSide(s, a, b, n);
      OnePerSide(s, b, c, n);
      OnePerSide(s, a, c, n);
      var j: nat :| j < s.depth && Node(s.depth, a, j) == n == Node(s.depth, b, j) && Side(a, j) != Side(b, j);
      var l: nat :| l < s.depth && Node(s.depth, b, l) == n == Node(s.depth, c, l) && Side(b, l) != Side(c, l);
      var m: nat :| m < s.depth && Node(s.depth, a, m) == n == Node(s.depth, c, m) && Side(a, m) != Side(c, m);
      LevelsDiffer(s.depth, a, j, b, l);
      LevelsDiffer(s.depth, a, j, a, m);
    }
  }

  // ---- no deadlock ----

  lemma {:induction false} HigherIsSmaller(depth: nat, i: nat, k: nat, l: nat)
    requires k < l < depth
    ensures Node(depth, i, l) < Node(depth, i, k)
    decreases l
  {
    ParentIsNode(depth, i, l - 1);
    if k < l - 1 {
      HigherIsSmaller(depth, i, k, l - 1);
    }
  }

  /** A thread blocked at a node holds only nodes with larger indices. */
  lemma WaiterHoldsLarger(ss: seq<State>, es: seq<Event>, k: nat, i: nat, n: nat, m: nat)
    requires Trace(ss, es) && Init(ss[0]) && k < |ss| && i < |ss[k].pc| && n < |ss[k].owner| && m < |ss[k].owner|
    ensures Shape(ss[k]) && (WaitsAt(ss[k], i, n) && ss[k].owner[m] == i ==> m > n)
  {
    RunInv(ss, es, k);
    var s := ss[k];
    if WaitsAt(s, i, n) && s.owner[m] == i {
      assert OwnerOk(s, m);
      var l: nat :| l < s.depth && Node(s.depth, i, l) == m;
      assert HoldsOk(s, i, l);
      HigherIsSmaller(s.depth, i, l, s.pc[i].k);
    }
  }

  /** The holder of the node a thread is blocked on either can step or is blocked further up. */
  lemma BlockerIsHigher(s: State, i: nat) returns (j: nat)
    requires Inv(s) && i < |s.pc| && s.pc[i].Wait?
    ensures j < |s.pc| && s.pc[j] != Out && (s.pc[j].Wait? ==> s.pc[j].k > s.pc[i].k)
  {
    var k := s.pc[i].k;
    assert ThreadOk(s, i) && HoldsOk(s, i, k);
    NodeRange(s.depth, i, k);
    var n := Node(s.depth, i, k);
    assert OwnerOk(s, n);
    j := s.owner[n];
    var l: nat :| l < s.depth && Node(s.depth, j, l) == n;
    LevelsDiffer(s.depth, i, k, j, l);
    assert HoldsOk(s, j, l);
  }

  /** A thread that is neither outside nor blocked has a step. */
  predicate CanMove(s: State, i: nat)
    requires Shape(s) && i < |s.pc|
  {
    s.pc[i] != Out && !s.pc[i].Wait?
  }

  lemma {:induction false} ClimbToMover(s: State, i: nat) returns (j: nat)
    requires Inv(s) && i < |s.pc| && s.pc[i] != Out
    ensures j < |s.pc| && CanMove(s, j)
    decreases if s.pc[i].Wait? then s.depth - s.pc[i].k else 0
  {
    if s.pc[i].Wait? {
      var m := BlockerIsHigher(s, i);
      j := ClimbToMover(s, m);
    } else {
      j := i;
    }
  }

  lemma MoverHasEvent(s: State, i: nat) returns (e: Event)
    requires Inv(s) && i < |s.pc| && CanMove(s, i)
    ensures Enabled(s, e) && e.i == i
  {
    match s.pc[i]
    case Climb(_) => e := Lock(i);
    case Granted(_) => e := Resume(i);
    case AtTop => e := Enter(i);
    case Critical => e := Exit(i);
    case Descend(k) =>
      var n := Node(s.depth, i, k);
      if w: nat :| w < |s.pc| && WaitsAt(s, w, n) {
        e := Unlock(i, w);
      } else {
        e := Unlock(i, -1);
      }
  }

  /** No deadlock: in every reachable state in which some thread is inside, one can step. */
  lemma NoDeadlock(ss: seq<State>, es: seq<Event>, k: nat, i: nat) returns (e: Event)
    requires Trace(ss, es) && Init(ss[0]) && k < |ss| && i < |ss[k].pc| && ss[k].pc[i] != Out
    ensures Enabled(ss[k], e) && ss[k].pc[e.i] != Out
  {
    RunInv(ss, es, k);
    var j := ClimbToMover(ss[k], i);
    e := MoverHasEvent(ss[k], j);
  }

  // ---- allocating and freeing a tree ----

  /** How many of the first `n` mutexes are not allocated. */
  ghost function FreeCount(ms: seq<M.Mutex>, n: nat): (c: nat)
    requires n <= |ms|
  {
    if n == 0 then 0 else FreeCount(ms, n - 1) + if ms[n - 1].alloc then 0 else 1
  }

  lemma {:induction false} FreeCountTaken(ms: seq<M.Mutex>, m: nat, x: M.Mutex, n: nat)
    requires m < |ms| && n <= |ms| && !ms[m].alloc && x.alloc
    ensures FreeCount(ms[m := x], n) == FreeCount(ms, n) - if m < n then 1 else 0
  {
    if n > 0 {
      FreeCountTaken(ms, m, x, n - 1);
    }
  }

  lemma {:induction false} FreeCountNone(ms: seq<M.Mutex>, n: nat)
    requires n <= |ms| && forall m :: 0 <= m < n ==> ms[m].alloc
    ensures FreeCount(ms, n) == 0
  {
    if n > 0 {
      FreeCountNone(ms, n - 1);
    }
  }

  /** From `s` to `s'` exactly the mutexes `ids` were allocated, for process `p`. */
  ghost predicate Allocated(s: M.State, s': M.State, p: nat, ids: seq<int>)
    requires M.Shape(s) && M.Shape(s') && p < M.NPROC
  {
    && (forall i, j :: 0 <= i < j < |ids| ==> ids[i] != ids[j])
    && (forall i :: 0 <= i < |ids| ==> 0 <= ids[i] < M.MAX_MUTEXES && !s.mutexes[ids[i]].alloc
                                       && s'.mutexes[ids[i]] == M.Mutex(true, false, -1) && s'.procs[p].mid[ids[i]])
    && (forall m :: 0 <= m < M.MAX_MUTEXES && m !in ids ==>
          s'.mutexes[m].alloc == s.mutexes[m].alloc && (s.mutexes[m].alloc ==> s'.mutexes[m] == s.mutexes[m])
          && s'.procs[p].mid[m] == s.procs[p].mid[m])
    && (forall q :: 0 <= q < M.NPROC && q != p ==> s'.procs[q] == s.procs[q])
    && s'.procs[p].threads == s.procs[p].threads && s'.procs[p].used == s.procs[p].used && s'.panicked == s.panicked
  }

  lemma AllocatedOne(s: M.State, s1: M.State, p: nat, ids: seq<int>)
    requires M.Inv(s) && M.Shape(s1) && p < M.NPROC && Allocated(s, s1, p, ids)
    requires M.AllocStep(s1, p).r >= 0
    ensures Allocated(s, M.AllocStep(s1, p).s, p, ids + [M.AllocStep(s1, p).r])
  {
    var m := M.AllocStep(s1, p).r;
    assert m !in ids;
  }

  lemma DeallocatedLast(s: M.State, s1: M.State, p: nat, ids: seq<int>)
    requires M.Inv(s) && M.Shape(s1) && p < M.NPROC && |ids| > 0 && Allocated(s, s1, p, ids)
    ensures M.DeallocStep(s1, p, ids[0]).r == 0
    ensures Allocated(s, M.DeallocStep(s1, p, ids[0]).s, p, ids[1..])
  {
    var s' := M.DeallocStep(s1, p, ids[0]).s;
    assert M.RegOk(s, p, ids[0]);
    forall m | 0 <= m < M.MAX_MUTEXES && m !in ids[1..]
      ensures s'.mutexes[m].alloc == s.mutexes[m].alloc && (s.mutexes[m].alloc ==> s'.mutexes[m] == s.mutexes[m])
      ensures s'.procs[p].mid[m] == s.procs[p].mid[m]
    {
      assert m == ids[0] || m !in ids;
    }
  }

  lemma AllocatedNothing(s: M.State, p: nat)
    requires M.Inv(s) && p < M.NPROC
    ensures M.Shape(s) && Allocated(s, s, p, [])
  {
  }

  lemma AllocFacts(s: M.State, p: nat)
    requires M.Shape(s) && p < M.NPROC
    ensures var o := M.AllocStep(s, p);
            o.s.procs[p].used == s.procs[p].used
            && (o.r < 0 ==> forall m :: 0 <= m < M.MAX_MUTEXES ==> s.mutexes[m].alloc)
            && (o.r < 0 ==> o.s == s)
            && (o.r >= 0 ==> FreeCount(o.s.mutexes, M.MAX_MUTEXES) == FreeCount(s.mutexes, M.MAX_MUTEXES) - 1)
  {
    var m := M.FirstFree(s.mutexes, 0);
    if m < M.MAX_MUTEXES {
      FreeCountTaken(s.mutexes, m, M.Mutex(true, false, -1), M.MAX_MUTEXES);
    }
  }

  lemma DeallocFacts(s: M.State, p: nat, m: int)
    requires M.Shape(s) && p < M.NPROC
    ensures M.DeallocStep(s, p, m).s.procs[p].used == s.procs[p].used
  {
  }

  /** The loop at `bad`: give back the mutexes allocated so far. */
  method Undo(kern: M.Kernel, p: nat, nodes: seq<int>, ghost s: M.State)
    requires M.Inv(s) && M.Shape(s) && M.Inv(kern.View()) && M.Shape(kern.View()) && p < M.NPROC && kern.procs[p].used
    requires Allocated(s, kern.View(), p, nodes)
    modifies kern
    ensures M.Inv(kern.View()) && M.Shape(kern.View()) && Allocated(s, kern.View(), p, [])
  {
    hide M.Inv, M.DeallocStep, Allocated;
    assert nodes[0..] == nodes;
    var j := 0;
    while j < |nodes|
      invariant 0 <= j <= |nodes| && M.Inv(kern.View()) && M.Shape(kern.View()) && kern.procs[p].used
      invariant Allocated(s, kern.View(), p, nodes[j..])
    {
      ghost var s1 := kern.View();
      DeallocatedLast(s, s1, p, nodes[j..]);
      M.DeallocInv(s1, p, nodes[j]);
      DeallocFacts(s1, p, nodes[j]);
      var r := kern.Dealloc(p, nodes[j]);
      assert nodes[j..][1..] == nodes[j + 1..];
      j := j + 1;
    }
    assert nodes[j..] == [];
  }

  /** trnmnt_tree_alloc: all the mutexes of the tree, or none. A negative size asks for none. */
  method AllocTree(kern: M.Kernel, p: nat, depth: int) returns (ok: bool, nodes: seq<int>)
    requires M.Inv(kern.View()) && p < M.NPROC && kern.procs[p].used
    modifies kern
    ensures M.Inv(kern.View())
    ensures ok <==> depth >= 1 && TreeSize(depth) <= FreeCount(old(kern.mutexes), M.MAX_MUTEXES)
    ensures ok ==> |nodes| == (if TreeSize(depth) < 0 then 0 else TreeSize(depth))
    ensures ok ==> Allocated(old(kern.View()), kern.View(), p, nodes)
    ensures !ok ==> Allocated(old(kern.View()), kern.View(), p, [])
  {
    hide M.Inv, M.AllocStep, Allocated, FreeCount, TreeSize;
    AllocatedNothing(kern.View(), p);
    if depth < 1 {
      return false, [];
    }
    ghost var s := kern.View();
    var size := TreeSize(depth);
    nodes := [];
    var i := 0;
    while i < size
      invariant 0 <= i == |nodes| && (i == 0 || i <= size)
      invariant M.Inv(kern.View()) && M.Shape(kern.View()) && Allocated(s, kern.View(), p, nodes) && kern.procs[p].used
      invariant FreeCount(kern.mutexes, M.MAX_MUTEXES) == FreeCount(s.mutexes, M.MAX_MUTEXES) - i
    {
      ghost var s1 := kern.View();
      M.AllocInv(s1, p);
      AllocFacts(s1, p);
      var r := kern.Alloc(p);
      if r < 0 {
        FreeCountNone(s1.mutexes, M.MAX_MUTEXES);
        Undo(kern, p, nodes, s);
        return false, nodes;
      }
      AllocatedOne(s, s1, p, nodes);
      nodes := nodes + [r];
      i := i + 1;
    }
    return true, nodes;
  }

  /** trnmnt_tree_dealloc from node `j` on: stops at the first mutex that cannot be freed. */
  function DeallocRun(s: M.State, p: nat, nodes: seq<int>, j: nat): (r: M.Out)
    requires M.Shape(s) && p < M.NPROC && j <= |nodes|
    ensures M.Shape(r.s)
    decreases |nodes| - j
  {
    if j == |nodes| then M.Out(s, 0)
    else
      var o := M.DeallocStep(s, p, nodes[j]);
      if o.r < 0 then M.Out(o.s, -1) else DeallocRun(o.s, p, nodes, j + 1)
  }

  method DeallocTree(kern: M.Kernel, p: nat, nodes: seq<int>) returns (r: int)
    requires M.Shape(kern.View()) && p < M.NPROC
    modifies kern
    ensures M.Out(kern.View(), r) == DeallocRun(old(kern.View()), p, nodes, 0)
  {
    hide M.DeallocStep;
    var j := 0;
    while j < |nodes|
      invariant 0 <= j <= |nodes| && M.Shape(kern.View())
      invariant DeallocRun(old(kern.View()), p, nodes, 0) == DeallocRun(kern.View(), p, nodes, j)
    {
      r := kern.Dealloc(p, nodes[j]);
      if r < 0 {
        return -1;
      }
      j := j + 1;
    }
    return 0;
  }

  /** Freeing a tree whose nodes are as allocated succeeds and undoes the allocation. */
  lemma {:induction false} DeallocUndoesAlloc(s: M.State, s1: M.State, p: nat, nodes: seq<int>, j: nat)
    requires M.Inv(s) && M.Shape(s1) && p < M.NPROC && j <= |nodes| && Allocated(s, s1, p, nodes[j..])
    ensures DeallocRun(s1, p, nodes, j).r == 0 && Allocated(s, DeallocRun(s1, p, nodes, j).s, p, [])
    decreases |nodes| - j
  {
    hide M.Inv, M.DeallocStep, Allocated;
    if j == |nodes| {
      assert nodes[j..] == [];
    } else {
      DeallocatedLast(s, s1, p, nodes[j..]);
      assert nodes[j..][1..] == nodes[j + 1..];
      DeallocUndoesAlloc(s, M.DeallocStep(s1, p, nodes[j]).s, p, nodes, j + 1);
    }
  }

  /** Freeing a tree that succeeds strands no thread holding or waiting for one of its nodes. */
  lemma {:induction false} DeallocRunStrandsNobody(s: M.State, p: nat, nodes: seq<int>, j: nat, i: nat, q: nat, u: nat)
    requires M.Inv(s) && p < M.NPROC && s.procs[p].used && j <= i < |nodes| && M.Names(q, u)
    requires DeallocRun(s, p, nodes, j).r == 0
    ensures 0 <= nodes[i] < M.MAX_MUTEXES && !M.Waits(s, q, u, nodes[i]) && !M.Owns(s, q, u, nodes[i])
    decreases |nodes| - j
  {
    if i == j {
      M.DeallocStrandsNobody(s, p, nodes[j], q, u);
    } else {
      M.DeallocInv(s, p, nodes[j]);
      DeallocRunStrandsNobody(M.DeallocStep(s, p, nodes[j]).s, p, nodes, j + 1, i, q, u);
    }
  }
}
