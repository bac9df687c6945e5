/** The logging protocol as a state machine over whole runs: any interleaving of the
    begin_op / log_write / end_op critical sections of many callers, the single-block disk
    writes of a commit, crashes between any two disk writes, and interrupted recoveries. */
module GroupCommit {
  import opened Blocks
  import opened RedoLog

  type OpId = nat

  /** What callers did, in the order it happened. */
  datatype Event =
    | Began(op: OpId)
    | Wrote(op: OpId, w: Write)
    | Ended(op: OpId)

  /** An outstanding system call, how many new blocks it has added to the log, and whether it
      is inside log_write between the size test and the lock. */
  datatype Op = Op(id: OpId, used: nat, passed: bool)

  datatype Phase =
    | Running
    | Committing(base: Disk, data: seq<Block>, done: nat)
    | Recovering(base: Disk, done: nat)
    | Halted      // panic: nothing more happens until the machine is started again

  /** `pinned`, `lh`, `ops` and `phase` are memory; only `disk` survives a crash. `events` and
      `durable` record history: the first `durable` events are those a crash cannot undo. */
  datatype State = State(
    disk: Disk,
    pinned: map<nat, Block>,
    lh: seq<nat>,
    ops: seq<Op>,
    phase: Phase,
    events: seq<Event>,
    durable: nat)

  // ---- histories ----

  /** The disk the first `k` events ask for. */
  function Replay(d: Disk, events: seq<Event>, k: nat): (r: Disk)
    requires k <= |events|
    ensures |r| == |d|
  {
    if k == 0 then d
    else
      var r := Replay(d, events, k - 1);
      match events[k - 1]
      case Wrote(_, w) => Put(r, w)
      case _ => r
  }

  /** System calls that began and have not ended among the first `k` events. */
  function Live(events: seq<Event>, k: nat): (ids: set<OpId>)
    requires k <= |events|
  {
    if k == 0 then {}
    else
      var r := Live(events, k - 1);
      match events[k - 1]
      case Began(op) => r + {op}
      case Wrote(_, _) => r
      case Ended(op) => r - {op}
  }

  /** Identifiers are fresh when a call begins; only live calls write and end. */
  predicate TracedAt(events: seq<Event>, k: nat)
    requires k < |events|
  {
    match events[k]
    case Began(op) => forall i :: 0 <= i < k ==> events[i].op != op
    case Wrote(op, _) => op in Live(events, k)
    case Ended(op) => op in Live(events, k)
  }

  predicate WellTraced(events: seq<Event>) {
    forall k :: 0 <= k < |events| ==> TracedAt(events, k)
  }

  /** No system call has events on both sides of position `k`. */
  predicate NotSplitAt(events: seq<Event>, k: nat) {
    forall i, j :: 0 <= i < k <= j < |events| ==> events[i].op != events[j].op
  }

  /** Histories with a common prefix mean the same up to its end. */
  lemma {:induction false} SamePrefix(d: Disk, xs: seq<Event>, ys: seq<Event>, k: nat)
    requires k <= |xs| && k <= |ys|
    requires forall i :: 0 <= i < k ==> xs[i] == ys[i]
    ensures Replay(d, xs, k) == Replay(d, ys, k)
    ensures Live(xs, k) == Live(ys, k)
  {
    if k > 0 { SamePrefix(d, xs, ys, k - 1); }
  }

  lemma TracedSame(d: Disk, xs: seq<Event>, ys: seq<Event>, k: nat)
    requires k < |xs| && k < |ys| && TracedAt(xs, k)
    requires forall i :: 0 <= i <= k ==> xs[i] == ys[i]
    ensures TracedAt(ys, k)
  {
    SamePrefix(d, xs, ys, k);
  }

  // ---- space ----

  function Unused(ops: seq<Op>): (n: int) {
    if ops == [] then 0 else MAXOPBLOCKS - ops[0].used + Unused(ops[1..])
  }

  lemma {:induction false} UnusedConcat(xs: seq<Op>, ys: seq<Op>)
    ensures Unused(xs + ys) == Unused(xs) + Unused(ys)
  {
    if xs == [] {
      assert xs + ys == ys;
    } else {
      UnusedConcat(xs[1..], ys);
      assert (xs + ys)[1..] == xs[1..] + ys;
    }
  }

  lemma {:induction false} UnusedBounds(ops: seq<Op>)
    requires forall i :: 0 <= i < |ops| ==> ops[i].used <= MAXOPBLOCKS
    ensures 0 <= Unused(ops) <= |ops| * MAXOPBLOCKS
  {
    if ops != [] { UnusedBounds(ops[1..]); }
  }

  lemma UnusedAt(ops: seq<Op>, i: nat)
    requires i < |ops|
    ensures Unused(ops) == Unused(ops[..i]) + (MAXOPBLOCKS - ops[i].used) + Unused(ops[i + 1..])
  {
    assert ops == ops[..i] + ops[i..];
    UnusedConcat(ops[..i], ops[i..]);
    assert ops[i..][1..] == ops[i + 1..];
  }

  // ---- steps ----

  function Ids(ops: seq<Op>): (ids: set<OpId>) {
    set o | o in ops :: o.id
  }

  predicate Init(l: Layout, d: Disk, s: State) {
    Empty(l, d) && s == State(d, map[], [], [], Running, [], 0)
  }

  predicate BeginStep(l: Layout, s: State, s': State, op: OpId) {
    && s.phase.Running?
    && |s.lh| + (|s.ops| + 1) * MAXOPBLOCKS <= LOGSIZE
    && (forall i :: 0 <= i < |s.events| ==> s.events[i].op != op)
    && s' == s.(ops := s.ops + [Op(op, 0, false)], events := s.events + [Began(op)])
  }

  /** The panic test of log_write. */
  predicate TooBig(l: Layout, s: State) {
    |s.lh| >= LOGSIZE || |s.lh| >= l.size - 1
  }

  /** Call `i` enters log_write and finds room. The test holds no lock, so other calls may log
      blocks before this one does. */
  predicate TestStep(l: Layout, s: State, s': State, i: nat) {
    && i < |s.ops|
    && !s.ops[i].passed
    && !TooBig(l, s)
    && s' == s.(ops := s.ops[i := s.ops[i].(passed := true)])
  }

  /** Call `i` takes the lock and logs block `w.blockno`, without testing again; a call adds at
      most MAXOPBLOCKS new blocks. */
  predicate AppendStep(l: Layout, s: State, s': State, i: nat, w: Write) {
    && i < |s.ops|
    && s.ops[i].passed
    && l.Home(s.disk, w.blockno)
    && (w.blockno !in s.lh ==> s.ops[i].used < MAXOPBLOCKS)
    && s' == s.(
         lh := if w.blockno in s.lh then s.lh else s.lh + [w.blockno],
         ops := s.ops[i := Op(s.ops[i].id, s.ops[i].used + if w.blockno in s.lh then 0 else 1, false)],
         pinned := s.pinned[w.blockno := w.data],
         events := s.events + [Wrote(s.ops[i].id, w)])
  }

  function CachedData(s: State): (data: seq<Block>)
    requires forall b :: b in s.lh ==> b in s.pinned
  {
    seq(|s.lh|, i requires 0 <= i < |s.lh| => s.pinned[s.lh[i]])
  }

  /** Call `i` ends; the last one out turns the log over to the commit. */
  predicate EndStep(l: Layout, s: State, s': State, i: nat) {
    && i < |s.ops|
    && !s.ops[i].passed
    && (forall b :: b in s.lh ==> b in s.pinned)
    && var ops := s.ops[..i] + s.ops[i + 1..];
       s' == s.(ops := ops,
                phase := if ops == [] then Committing(s.disk, CachedData(s), 0) else s.phase,
                events := s.events + [Ended(s.ops[i].id)])
  }

  /** The writes of the commit in progress; an empty log writes nothing. */
  function Todo(l: Layout, s: State): (ws: seq<Write>)
    requires s.phase.Committing?
    requires Described(l, s.phase.base, s.lh, s.phase.data)
  {
    if s.lh == [] then [] else CommitWrites(l, s.phase.base, s.lh, s.phase.data)
  }

  /** One block of the commit reaches the disk. The header write makes the group durable. Every
      logged block is pinned in its buffer, so there is one more buffer for log blocks and header
      only if fewer than NBUF blocks are logged. */
  predicate CommitWriteStep(l: Layout, s: State, s': State) {
    && s.phase.Committing?
    && |s.lh| < NBUF
    && Described(l, s.phase.base, s.lh, s.phase.data)
    && var k := s.phase.done;
       && k < |Todo(l, s)|
       && s' == s.(disk := Put(s.disk, Todo(l, s)[k]),
                   pinned := s.pinned - {Todo(l, s)[k].blockno},
                   phase := Committing(s.phase.base, s.phase.data, k + 1),
                   durable := if k == |s.lh| then |s.events| else s.durable)
  }

  /** With every buffer pinned, bread of the first log block panics for lack of a buffer. */
  predicate HaltStep(l: Layout, s: State, s': State) {
    && s.phase.Committing?
    && |s.lh| >= NBUF
    && s' == s.(phase := Halted)
  }

  predicate CommitDoneStep(l: Layout, s: State, s': State) {
    && s.phase.Committing?
    && Described(l, s.phase.base, s.lh, s.phase.data)
    && s.phase.done == |Todo(l, s)|
    && s' == s.(lh := [], phase := Running, durable := |s.events|)
  }

  /** The machine stops: memory is gone, and so is what was not durable. */
  predicate CrashStep(l: Layout, s: State, s': State) {
    && s.durable <= |s.events|
    && s' == s.(pinned := map[], lh := [], ops := [], phase := Recovering(s.disk, 0),
                events := s.events[..s.durable])
  }

  predicate RecoverWriteStep(l: Layout, s: State, s': State) {
    && s.phase.Recovering?
    && HeadOk(l, s.phase.base)
    && var k := s.phase.done;
       var ws := RecoverWrites(l, s.phase.base);
       && k < |ws|
       && s' == s.(disk := Put(s.disk, ws[k]), phase := Recovering(s.phase.base, k + 1))
  }

  predicate RecoverDoneStep(l: Layout, s: State, s': State) {
    && s.phase.Recovering?
    && HeadOk(l, s.phase.base)
    && s.phase.done == |RecoverWrites(l, s.phase.base)|
    && s' == s.(phase := Running)
  }

  ghost predicate Step(l: Layout, s: State, s': State) {
    || (exists op :: BeginStep(l, s, s', op))
    || (exists i :: TestStep(l, s, s', i))
    || (exists i, w :: AppendStep(l, s, s', i, w))
    || (exists i :: EndStep(l, s, s', i))
    || CommitWriteStep(l, s, s')
    || HaltStep(l, s, s')
    || CommitDoneStep(l, s, s')
    || CrashStep(l, s, s')
    || RecoverWriteStep(l, s, s')
    || RecoverDoneStep(l, s, s')
  }

  ghost predicate Run(l: Layout, d: Disk, run: seq<State>) {
    && run != []
    && Init(l, d, run[0])
    && forall i :: 0 < i < |run| ==> Step(l, run[i - 1], run[i])
  }

  // ---- invariant ----

  /** What readers of block `b` see: the pinned buffer, else the disk. */
  function Logical(s: State, b: nat): (r: Block)
    requires b < |s.disk|
  {
    if b in s.pinned then s.pinned[b] else s.disk[b]
  }

  /** The history is consistent, and cut at `durable` it splits no call. */
  predicate HistoryInv(s: State) {
    && WellTraced(s.events)
    && s.durable <= |s.events|
    && Live(s.events, s.durable) == {}
    && Ids(s.ops) == Live(s.events, |s.events|)
    && (forall i, j :: 0 <= i < j < |s.ops| ==> s.ops[i].id != s.ops[j].id)
  }

  /** The sizes of the log area for which the size test keeps the log inside it: enough room for
      every reservation, or none, so that nothing passes the test. */
  predicate Roomy(l: Layout) {
    l.size > LOGSIZE || l.size == 1
  }

  /** The sizes for which no commit writes past the log area: with LOGSIZE blocks a log that fills
      the area also fills the buffer cache, and the commit cannot start. */
  predicate Safe(l: Layout) {
    l.size >= LOGSIZE || l.size == 1
  }

  /** Log space: what is logged plus what outstanding calls may still add fits. */
  predicate SpaceInv(l: Layout, s: State) {
    && (forall i :: 0 <= i < |s.ops| ==> s.ops[i].used <= MAXOPBLOCKS)
    && |s.lh| + Unused(s.ops) <= LOGSIZE
    && |s.lh| <= LOGSIZE
    && (l.size == 1 ==> s.lh == [] && forall i :: 0 <= i < |s.ops| ==> !s.ops[i].passed)
  }

  /** What holds for every size of the log area. */
  ghost predicate BasicInv(l: Layout, d: Disk, s: State) {
    && |s.disk| == |d|
    && HistoryInv(s)
    && SpaceInv(l, s)
    && Distinct(s.lh)
    && (forall i :: 0 <= i < |s.lh| ==> l.Home(d, s.lh[i]))
    && (!s.phase.Running? ==> s.ops == [])
    && (s.phase.Running? ==> forall b :: b in s.lh ==> b in s.pinned)
    && (s.phase.Recovering? ==> s.lh == [])
  }

  /** Readers see the latest writes. */
  ghost predicate ReadersInv(l: Layout, d: Disk, s: State) {
    |s.disk| == |d| && forall b :: 0 <= b < |d| && !l.InLog(b) ==> Logical(s, b) == Replay(d, s.events, |s.events|)[b]
  }

  /** The log on disk is empty and the home blocks hold what is durable. */
  predicate Unwritten(l: Layout, d: Disk, s: State)
    requires s.durable <= |s.events|
  {
    Empty(l, s.disk) && SameHome(l, s.disk, Replay(d, s.events, s.durable))
  }

  predicate RunningInv(l: Layout, d: Disk, s: State)
    requires s.durable <= |s.events|
  {
    && Unwritten(l, d, s)
    && s.pinned.Keys == Members(s.lh)
  }

  /** Logged blocks the commit in progress has not yet written home. */
  function Uninstalled(s: State): (bs: set<nat>)
    requires s.phase.Committing?
  {
    set i | 0 <= i < |s.lh| && s.phase.done <= |s.lh| + 1 + i :: s.lh[i]
  }

  predicate CommittingInv(l: Layout, d: Disk, s: State)
    requires s.phase.Committing? && s.durable <= |s.events|
  {
    var base, data, k := s.phase.base, s.phase.data, s.phase.done;
    && Empty(l, base)
    && TransOk(l, base, s.lh, data)
    && k <= |Todo(l, s)|
    && s.disk == Apply(base, Todo(l, s), k)
    && (k <= |s.lh| ==> SameHome(l, base, Replay(d, s.events, s.durable)))
    && (k > |s.lh| ==> s.durable == |s.events|)
    && SameHome(l, Updated(base, s.lh, data), Replay(d, s.events, |s.events|))
    && s.pinned.Keys <= Uninstalled(s)
  }

  predicate RecoveringInv(l: Layout, d: Disk, s: State)
    requires s.phase.Recovering?
  {
    && s.pinned == map[]
    && HeadOk(l, s.phase.base)
    && s.phase.done <= |RecoverWrites(l, s.phase.base)|
    && s.disk == Apply(s.phase.base, RecoverWrites(l, s.phase.base), s.phase.done)
    && s.durable == |s.events|
    && SameHome(l, Recover(l, s.phase.base), Replay(d, s.events, |s.events|))
  }

  /** What the disk and the pinned buffers hold in each phase. */
  ghost predicate DiskInv(l: Layout, d: Disk, s: State)
    requires s.durable <= |s.events|
  {
    && (s.phase.Running? ==> RunningInv(l, d, s))
    && (s.phase.Committing? && |s.lh| < NBUF ==> CommittingInv(l, d, s))
    && (s.phase.Committing? && |s.lh| >= NBUF ==> RunningInv(l, d, s) && s.phase.done == 0)
    && (s.phase.Halted? ==> Unwritten(l, d, s))
    && (s.phase.Recovering? ==> RecoveringInv(l, d, s))
    && (!s.phase.Recovering? ==> ReadersInv(l, d, s))
  }

  ghost predicate Inv(l: Layout, d: Disk, s: State) {
    BasicInv(l, d, s) && DiskInv(l, d, s)
  }

  // ---- every step keeps the invariant ----

  lemma InitInv(l: Layout, d: Disk, s: State)
    requires Init(l, d, s)
    ensures Inv(l, d, s)
  {
    hide Word;
  }

  lemma {:induction false} LiveMentioned(events: seq<Event>, k: nat, op: OpId)
    requires k <= |events| && op in Live(events, k)
    ensures exists i :: 0 <= i < k && events[i].op == op
  {
    if op in Live(events, k - 1) {
      LiveMentioned(events, k - 1, op);
    } else {
      assert events[k - 1].op == op;
    }
  }

  /** One more event: everything said about the old events still holds. */
  lemma HistorySnoc(d: Disk, events: seq<Event>, e: Event)
    requires WellTraced(events) && TracedAt(events + [e], |events|)
    ensures WellTraced(events + [e])
    ensures forall k :: 0 <= k <= |events| ==> Live(events + [e], k) == Live(events, k)
    ensures forall k :: 0 <= k <= |events| ==> Replay(d, events + [e], k) == Replay(d, events, k)
  {
    var more := events + [e];
    forall k | 0 <= k <= |events|
      ensures Live(more, k) == Live(events, k) && Replay(d, more, k) == Replay(d, events, k)
    {
      SamePrefix(d, events, more, k);
    }
    forall k | 0 <= k < |more| ensures TracedAt(more, k) {
      if k < |events| { TracedSame(d, events, more, k); }
    }
  }

  lemma BeginHistory(l: Layout, d: Disk, s: State, s': State, op: OpId)
    requires HistoryInv(s) && BeginStep(l, s, s', op)
    ensures HistoryInv(s')
    ensures Replay(d, s'.events, |s'.events|) == Replay(d, s.events, |s.events|)
    ensures Replay(d, s'.events, s'.durable) == Replay(d, s.events, s.durable)
  {
    HistorySnoc(d, s.events, Began(op));
    assert Ids(s'.ops) == Ids(s.ops) + {op} by {
      assert s'.ops[|s.ops|] == Op(op, 0, false);
      forall o | o in s.ops ensures o in s'.ops { }
    }
    forall i | 0 <= i < |s.ops| ensures s.ops[i].id != op {
      assert s.ops[i].id in Ids(s.ops);
      if s.ops[i].id == op { LiveMentioned(s.events, |s.events|, op); assert false; }
    }
  }

  lemma BeginBasic(l: Layout, d: Disk, s: State, s': State, op: OpId)
    requires BasicInv(l, d, s) && BeginStep(l, s, s', op)
    ensures BasicInv(l, d, s')
  {
    BeginHistory(l, d, s, s', op);
    UnusedConcat(s.ops, [Op(op, 0, false)]);
    assert Unused([Op(op, 0, false)]) == MAXOPBLOCKS;
    UnusedBounds(s.ops);
  }

  lemma BeginInv(l: Layout, d: Disk, s: State, s': State, op: OpId)
    requires Inv(l, d, s) && BeginStep(l, s, s', op)
    ensures Inv(l, d, s')
  {
    hide Word, SpaceInv;
    BeginBasic(l, d, s, s', op);
    BeginHistory(l, d, s, s', op);
  }

  lemma IdsOfUpdate(ops: seq<Op>, i: nat, o: Op)
    requires i < |ops| && o.id == ops[i].id
    ensures Ids(ops[i := o]) == Ids(ops)
  {
    var ops' := ops[i := o];
    forall o | o in ops ensures o.id in Ids(ops') {
      var j :| 0 <= j < |ops| && ops[j] == o;
      assert ops'[j] in ops';
    }
    forall o | o in ops' ensures o.id in Ids(ops) {
      var j :| 0 <= j < |ops'| && ops'[j] == o;
      assert ops[j] in ops;
    }
  }

  /** Changing one call changes the space still reserved by what that call used. */
  lemma UnusedOfUpdate(ops: seq<Op>, i: nat, o: Op)
    requires i < |ops|
    ensures Unused(ops[i := o]) == Unused(ops) + ops[i].used - o.used
  {
    UnusedAt(ops, i);
    UnusedAt(ops[i := o], i);
    assert ops[i := o][..i] == ops[..i] && ops[i := o][i + 1..] == ops[i + 1..];
  }

  lemma TestBasic(l: Layout, d: Disk, s: State, s': State, i: nat)
    requires BasicInv(l, d, s) && TestStep(l, s, s', i)
    ensures BasicInv(l, d, s')
  {
    IdsOfUpdate(s.ops, i, s'.ops[i]);
    UnusedOfUpdate(s.ops, i, s'.ops[i]);
  }

  lemma TestInv(l: Layout, d: Disk, s: State, s': State, i: nat)
    requires Inv(l, d, s) && TestStep(l, s, s', i)
    ensures Inv(l, d, s')
  {
    hide Word, RecoverWrites, HistoryInv, SpaceInv;
    TestBasic(l, d, s, s', i);
  }

  lemma AppendSpace(l: Layout, s: State, s': State, i: nat, w: Write)
    requires SpaceInv(l, s) && AppendStep(l, s, s', i, w)
    ensures SpaceInv(l, s')
  {
    UnusedOfUpdate(s.ops, i, s'.ops[i]);
    UnusedBounds(s'.ops);
  }

  lemma AppendHistory(l: Layout, d: Disk, s: State, s': State, i: nat, w: Write)
    requires HistoryInv(s) && AppendStep(l, s, s', i, w)
    ensures HistoryInv(s')
    ensures Replay(d, s'.events, |s'.events|) == Put(Replay(d, s.events, |s.events|), w)
    ensures Replay(d, s'.events, s'.durable) == Replay(d, s.events, s.durable)
  {
    var e := Wrote(s.ops[i].id, w);
    assert s.ops[i].id in Ids(s.ops);
    SamePrefix(d, s.events, s.events + [e], |s.events|);
    HistorySnoc(d, s.events, e);
    IdsOfUpdate(s.ops, i, s'.ops[i]);
  }

  lemma AppendBasic(l: Layout, d: Disk, s: State, s': State, i: nat, w: Write)
    requires BasicInv(l, d, s) && AppendStep(l, s, s', i, w)
    ensures BasicInv(l, d, s')
  {
    hide SpaceInv, HistoryInv;
    AppendSpace(l, s, s', i, w);
    AppendHistory(l, d, s, s', i, w);
  }

  lemma AppendRunning(l: Layout, d: Disk, s: State, s': State, i: nat, w: Write)
    requires s.durable <= |s.events| && RunningInv(l, d, s) && AppendStep(l, s, s', i, w)
    requires Replay(d, s'.events, s'.durable) == Replay(d, s.events, s.durable)
    ensures RunningInv(l, d, s')
  {
    hide Word;
    assert s'.pinned.Keys == s.pinned.Keys + {w.blockno};
  }

  lemma AppendInv(l: Layout, d: Disk, s: State, s': State, i: nat, w: Write)
    requires Inv(l, d, s) && AppendStep(l, s, s', i, w)
    ensures Inv(l, d, s')
  {
    hide Word, RunningInv, SpaceInv;
    AppendBasic(l, d, s, s', i, w);
    AppendHistory(l, d, s, s', i, w);
    AppendRunning(l, d, s, s', i, w);
  }

  lemma UnusedOfRemove(ops: seq<Op>, i: nat)
    requires i < |ops|
    ensures Unused(ops[..i] + ops[i + 1..]) == Unused(ops) - (MAXOPBLOCKS - ops[i].used)
  {
    UnusedAt(ops, i);
    UnusedConcat(ops[..i], ops[i + 1..]);
  }

  lemma RemoveOp(ops: seq<Op>, i: nat)
    requires i < |ops|
    requires forall a, b :: 0 <= a < b < |ops| ==> ops[a].id != ops[b].id
    ensures var rest := ops[..i] + ops[i + 1..];
            && Ids(rest) == Ids(ops) - {ops[i].id}
            && (forall a, b :: 0 <= a < b < |rest| ==> rest[a].id != rest[b].id)
  {
    var rest := ops[..i] + ops[i + 1..];
    forall a | 0 <= a < |ops| && a != i ensures ops[a] in rest && ops[a].id != ops[i].id {
      assert ops[a] == rest[if a < i then a else a - 1];
    }
    forall o | o in rest ensures o in ops && o.id != ops[i].id {
      var a :| 0 <= a < |rest| && rest[a] == o;
      assert o == ops[if a < i then a else a + 1];
    }
  }

  lemma EndHistory(l: Layout, d: Disk, s: State, s': State, i: nat)
    requires HistoryInv(s) && EndStep(l, s, s', i)
    ensures HistoryInv(s')
    ensures Replay(d, s'.events, |s'.events|) == Replay(d, s.events, |s.events|)
    ensures Replay(d, s'.events, s'.durable) == Replay(d, s.events, s.durable)
  {
    var e := Ended(s.ops[i].id);
    assert s.ops[i].id in Ids(s.ops);
    SamePrefix(d, s.events, s.events + [e], |s.events|);
    HistorySnoc(d, s.events, e);
    RemoveOp(s.ops, i);
  }

  lemma EndSpace(l: Layout, s: State, s': State, i: nat)
    requires SpaceInv(l, s) && EndStep(l, s, s', i)
    ensures SpaceInv(l, s')
  {
    UnusedOfRemove(s.ops, i);
  }

  lemma EndBasic(l: Layout, d: Disk, s: State, s': State, i: nat)
    requires BasicInv(l, d, s) && EndStep(l, s, s', i)
    ensures BasicInv(l, d, s')
  {
    hide SpaceInv, HistoryInv;
    EndHistory(l, d, s, s', i);
    EndSpace(l, s, s', i);
  }

  /** When the last call ends, installing the cached data gives exactly what readers see. */
  lemma ClaimedGroup(l: Layout, d: Disk, s: State)
    requires |s.lh| < l.size && BasicInv(l, d, s) && RunningInv(l, d, s) && ReadersInv(l, d, s)
    ensures TransOk(l, s.disk, s.lh, CachedData(s))
    ensures SameHome(l, Updated(s.disk, s.lh, CachedData(s)), Replay(d, s.events, |s.events|))
  {
    hide Word, Updated;
    var data := CachedData(s);
    forall b | 0 <= b < |d| && !l.InLog(b) ensures Updated(s.disk, s.lh, data)[b] == Logical(s, b) {
      UpdatedAt(l, s.disk, s.lh, data, b);
      if b in s.lh {
        var i :| 0 <= i < |s.lh| && s.lh[i] == b;
        assert Updated(s.disk, s.lh, data)[b] == data[i];
      }
    }
  }

  lemma EndInv(l: Layout, d: Disk, s: State, s': State, i: nat)
    requires Inv(l, d, s) && EndStep(l, s, s', i)
    requires |s.lh| < NBUF ==> |s.lh| < l.size
    ensures Inv(l, d, s')
  {
    hide Word, SpaceInv, Updated;
    EndBasic(l, d, s, s', i);
    EndHistory(l, d, s, s', i);
    if s'.ops == [] && |s.lh| < NBUF {
      ClaimedGroup(l, d, s);
    }
  }

  /** Where write `k` of a commit goes: log blocks, header, home blocks, header. */
  lemma CommitWriteAt(l: Layout, base: Disk, lh: seq<nat>, data: seq<Block>, k: nat)
    requires TransOk(l, base, lh, data) && k < 2 * |lh| + 2
    ensures var w := CommitWrites(l, base, lh, data)[k];
            if |lh| < k <= 2 * |lh| then w == Write(lh[k - |lh| - 1], data[k - |lh| - 1])
            else l.InLog(w.blockno) && w.blockno < |base|
  {
  }

  lemma CommitWriteReaders(l: Layout, d: Disk, s: State, s': State)
    requires s.phase.Committing? && s.durable <= |s.events|
    requires CommittingInv(l, d, s) && ReadersInv(l, d, s) && CommitWriteStep(l, s, s')
    ensures ReadersInv(l, d, s')
  {
    hide Word, Updated, PutHead, CommitWrites;
    var base, data, k := s.phase.base, s.phase.data, s.phase.done;
    CommitWriteAt(l, base, s.lh, data, k);
    if |s.lh| < k <= 2 * |s.lh| {
      UpdatedAt(l, base, s.lh, data, s.lh[k - |s.lh| - 1]);
    }
  }

  lemma CommitWritePinned(l: Layout, d: Disk, s: State, s': State)
    requires s.phase.Committing? && s.durable <= |s.events|
    requires CommittingInv(l, d, s) && CommitWriteStep(l, s, s')
    ensures s'.pinned.Keys <= Uninstalled(s')
  {
    hide Word, PutHead, CommitWrites;
    var k := s.phase.done;
    CommitWriteAt(l, s.phase.base, s.lh, s.phase.data, k);
    forall b | b in s'.pinned ensures b in Uninstalled(s') {
      assert b in Uninstalled(s);
      var i :| 0 <= i < |s.lh| && k <= |s.lh| + 1 + i && s.lh[i] == b;
      assert k != |s.lh| + 1 + i;
    }
  }

  lemma CommitBasic(l: Layout, d: Disk, s: State, s': State)
    requires BasicInv(l, d, s)
    requires CommitWriteStep(l, s, s') || CommitDoneStep(l, s, s') || HaltStep(l, s, s')
    ensures BasicInv(l, d, s')
  {
    hide Word, Todo, CommitWrites;
    assert Ids(s.ops) == {};
    assert Unused([]) == 0;
  }

  lemma HistoryBounds(s: State)
    requires HistoryInv(s)
    ensures s.durable <= |s.events|
  {
  }

  lemma CommitWriteInv(l: Layout, d: Disk, s: State, s': State)
    requires Inv(l, d, s) && CommitWriteStep(l, s, s')
    ensures Inv(l, d, s')
  {
    hide Word, Updated, PutHead, CommitWrites, HistoryInv, SpaceInv;
    CommitBasic(l, d, s, s');
    HistoryBounds(s);
    HistoryBounds(s');
    CommitWriteReaders(l, d, s, s');
    CommitWritePinned(l, d, s, s');
    assert CommittingInv(l, d, s');
  }

  lemma CommitDoneInv(l: Layout, d: Disk, s: State, s': State)
    requires Inv(l, d, s) && CommitDoneStep(l, s, s')
    ensures Inv(l, d, s')
  {
    hide Word, PutHead, CommitWrites, SpaceInv;
    CommitBasic(l, d, s, s');
    if s.lh != [] {
      CommitCompletes(l, s.phase.base, s.lh, s.phase.data);
    }
    assert Uninstalled(s) == {};
    assert s.pinned.Keys == {};
  }

  lemma HaltInv(l: Layout, d: Disk, s: State, s': State)
    requires Inv(l, d, s) && HaltStep(l, s, s')
    ensures Inv(l, d, s')
  {
    hide Word, HistoryInv, SpaceInv;
    CommitBasic(l, d, s, s');
    HistoryBounds(s);
  }

  /** Whatever the phase, the disk as it stands recovers to the durable part of the history. */
  lemma RecoverableNow(l: Layout, d: Disk, s: State)
    requires Inv(l, d, s)
    ensures HeadOk(l, s.disk)
    ensures SameHome(l, Recover(l, s.disk), Replay(d, s.events, s.durable))
  {
    hide Word, PutHead, CommitWrites, RecoverWrites, Updated;
    match s.phase
    case Running =>
      RecoverEmpty(l, s.disk);
    case Committing(base, data, k) =>
      if s.lh == [] || |s.lh| >= NBUF {
        RecoverEmpty(l, s.disk);
      } else {
        CrashAtomicity(l, base, s.lh, data, k, []);
      }
    case Halted =>
      RecoverEmpty(l, s.disk);
    case Recovering(base, k) =>
      RecoverAfterPrefix(l, base, k);
  }

  lemma CrashHistory(l: Layout, d: Disk, s: State, s': State)
    requires HistoryInv(s) && CrashStep(l, s, s')
    ensures HistoryInv(s')
    ensures Replay(d, s'.events, s'.durable) == Replay(d, s.events, s.durable)
  {
    SamePrefix(d, s.events, s'.events, s.durable);
    forall k | 0 <= k < |s'.events| ensures TracedAt(s'.events, k) {
      TracedSame(d, s.events, s'.events, k);
    }
    assert Ids(s'.ops) == {};
  }

  lemma CrashBasic(l: Layout, d: Disk, s: State, s': State)
    requires BasicInv(l, d, s) && CrashStep(l, s, s')
    ensures BasicInv(l, d, s')
  {
    hide HistoryInv;
    CrashHistory(l, d, s, s');
    assert Unused([]) == 0;
  }

  lemma CrashInv(l: Layout, d: Disk, s: State, s': State)
    requires Inv(l, d, s) && CrashStep(l, s, s')
    ensures Inv(l, d, s')
  {
    hide Word, PutHead, RecoverWrites, Recover, SpaceInv;
    CrashBasic(l, d, s, s');
    CrashHistory(l, d, s, s');
    RecoverableNow(l, d, s);
  }

  lemma RecoverBasic(l: Layout, d: Disk, s: State, s': State)
    requires BasicInv(l, d, s) && (RecoverWriteStep(l, s, s') || RecoverDoneStep(l, s, s'))
    ensures BasicInv(l, d, s')
  {
    hide Word, RecoverWrites;
  }

  lemma RecoverWriteInv(l: Layout, d: Disk, s: State, s': State)
    requires Inv(l, d, s) && RecoverWriteStep(l, s, s')
    ensures Inv(l, d, s')
  {
    hide Word, PutHead, RecoverWrites, Recover, HistoryInv, SpaceInv;
    RecoverBasic(l, d, s, s');
    HistoryBounds(s);
  }

  lemma RecoverDoneInv(l: Layout, d: Disk, s: State, s': State)
    requires Inv(l, d, s) && RecoverDoneStep(l, s, s')
    ensures Inv(l, d, s')
  {
    hide Word, PutHead, RecoverWrites, HistoryInv, SpaceInv;
    RecoverBasic(l, d, s, s');
    HistoryBounds(s);
    RecoverEmpties(l, s.phase.base);
  }

  /** For every size of the log area. */
  lemma BasicStep(l: Layout, d: Disk, s: State, s': State)
    requires BasicInv(l, d, s) && Step(l, s, s')
    ensures BasicInv(l, d, s')
  {
    hide BasicInv;
    if CommitWriteStep(l, s, s') || CommitDoneStep(l, s, s') || HaltStep(l, s, s') { CommitBasic(l, d, s, s'); }
    else if CrashStep(l, s, s') { CrashBasic(l, d, s, s'); }
    else if RecoverWriteStep(l, s, s') || RecoverDoneStep(l, s, s') { RecoverBasic(l, d, s, s'); }
    else if op :| BeginStep(l, s, s', op) { BeginBasic(l, d, s, s', op); }
    else if i :| TestStep(l, s, s', i) { TestBasic(l, d, s, s', i); }
    else if i, w :| AppendStep(l, s, s', i, w) { AppendBasic(l, d, s, s', i, w); }
    else { var i :| EndStep(l, s, s', i); EndBasic(l, d, s, s', i); }
  }

  lemma InvParts(l: Layout, d: Disk, s: State)
    requires Inv(l, d, s)
    ensures BasicInv(l, d, s) && s.durable <= |s.events| && DiskInv(l, d, s)
  {
    hide DiskInv;
  }

  lemma {:induction false} BasicRun(l: Layout, d: Disk, run: seq<State>, i: nat)
    requires Run(l, d, run) && i < |run|
    ensures BasicInv(l, d, run[i])
  {
    hide BasicInv, Step;
    if i == 0 {
      InitInv(l, d, run[0]);
      InvParts(l, d, run[0]);
    } else {
      BasicRun(l, d, run, i - 1);
      BasicStep(l, d, run[i - 1], run[i]);
    }
  }

  lemma StepInv(l: Layout, d: Disk, s: State, s': State)
    requires Safe(l) && Inv(l, d, s) && Step(l, s, s')
    ensures Inv(l, d, s')
  {
    if CommitWriteStep(l, s, s') { CommitWriteInv(l, d, s, s'); }
    else if CommitDoneStep(l, s, s') { CommitDoneInv(l, d, s, s'); }
    else if HaltStep(l, s, s') { HaltInv(l, d, s, s'); }
    else if CrashStep(l, s, s') { CrashInv(l, d, s, s'); }
    else if RecoverWriteStep(l, s, s') { RecoverWriteInv(l, d, s, s'); }
    else if RecoverDoneStep(l, s, s') { RecoverDoneInv(l, d, s, s'); }
    else if op :| BeginStep(l, s, s', op) { BeginInv(l, d, s, s', op); }
    else if i :| TestStep(l, s, s', i) { TestInv(l, d, s, s', i); }
    else if i, w :| AppendStep(l, s, s', i, w) { AppendInv(l, d, s, s', i, w); }
    else { var i :| EndStep(l, s, s', i); EndInv(l, d, s, s', i); }
  }

  lemma {:induction false} RunInv(l: Layout, d: Disk, run: seq<State>, i: nat)
    requires Safe(l) && Run(l, d, run) && i < |run|
    ensures Inv(l, d, run[i])
  {
    if i == 0 {
      InitInv(l, d, run[0]);
    } else {
      RunInv(l, d, run, i - 1);
      StepInv(l, d, run[i - 1], run[i]);
    }
  }

  // ---- what the invariant says about runs ----

  /** Once no call is live, earlier calls have no later events. */
  lemma {:induction false} EndedNeverReturns(events: seq<Event>, k: nat, i: nat, j: nat)
    requires WellTraced(events) && 0 <= i < k <= j < |events|
    requires Live(events, k) == {}
    ensures events[i].op != events[j].op
    ensures events[i].op !in Live(events, j) && events[i].op !in Live(events, j + 1)
    decreases j
  {
    if k < j { EndedNeverReturns(events, k, i, j - 1); }
    assert TracedAt(events, j);
  }

  /** Recovery of the disk as it stands yields the durable part of the history. */
  predicate Recoverable(l: Layout, d: Disk, s: State) {
    && s.durable <= |s.events|
    && HeadOk(l, s.disk)
    && SameHome(l, Recover(l, s.disk), Replay(d, s.events, s.durable))
  }

  /** Group commit is atomic per system call. In every state of every run, recovery of the
      disk as it stands yields the effect of a prefix of the history in which every call has
      ended and no call has a later event; nothing uncommitted is in a home block while calls
      run; readers always see the latest writes; a commit has no call outstanding. */
  lemma CrashSafety(l: Layout, d: Disk, run: seq<State>, i: nat)
    requires Safe(l) && Run(l, d, run) && i < |run|
    ensures var s := run[i];
            && Recoverable(l, d, s)
            && Live(s.events, s.durable) == {}
            && NotSplitAt(s.events, s.durable)
            && (s.phase.Running? ==> SameHome(l, s.disk, Replay(d, s.events, s.durable)))
            && (!s.phase.Recovering? ==> ReadersInv(l, d, s))
            && (s.phase.Committing? ==> s.ops == [])
  {
    RunInv(l, d, run, i);
    var s := run[i];
    RecoverableNow(l, d, s);
    forall i, j | 0 <= i < s.durable <= j < |s.events| ensures s.events[i].op != s.events[j].op {
      EndedNeverReturns(s.events, s.durable, i, j);
    }
  }

  /** The events a crash cannot undo. */
  function DurablePart(s: State): (events: seq<Event>) {
    if s.durable <= |s.events| then s.events[..s.durable] else s.events
  }

  lemma StepKeepsDurable(l: Layout, s: State, t: State)
    requires HistoryInv(s) && HistoryInv(t) && Step(l, s, t)
    ensures DurablePart(s) <= DurablePart(t)
  {
  }

  lemma DurableStep(l: Layout, d: Disk, run: seq<State>, j: nat)
    requires Run(l, d, run) && 0 < j < |run|
    ensures DurablePart(run[j - 1]) <= DurablePart(run[j])
  {
    BasicRun(l, d, run, j - 1);
    BasicRun(l, d, run, j);
    StepKeepsDurable(l, run[j - 1], run[j]);
  }

  lemma PrefixTrans(x: seq<Event>, y: seq<Event>, z: seq<Event>)
    requires x <= y && y <= z
    ensures x <= z
  {
  }

  /** Once durable, always durable, whatever crashes follow. */
  lemma {:induction false} DurableGrows(l: Layout, d: Disk, run: seq<State>, i: nat, j: nat)
    requires Run(l, d, run) && i <= j < |run|
    ensures DurablePart(run[i]) <= DurablePart(run[j])
  {
    hide DurablePart, Step, Init;
    if i < j {
      DurableGrows(l, d, run, i, j - 1);
      DurableStep(l, d, run, j);
      PrefixTrans(DurablePart(run[i]), DurablePart(run[j - 1]), DurablePart(run[j]));
    }
  }

  /** end_op never finds a commit under way, whatever the size of the log area. */
  lemma EndOpNeverPanics(l: Layout, d: Disk, run: seq<State>, i: nat)
    requires Run(l, d, run) && i < |run| && run[i].ops != []
    ensures run[i].phase.Running?
  {
    BasicRun(l, d, run, i);
  }

  /** Whatever the size of the log area: reservations are honoured in the in-memory list, no block
      is in it twice, and the log never logs itself. The list also fits the area if that is roomy. */
  lemma LogStaysInBounds(l: Layout, d: Disk, run: seq<State>, i: nat)
    requires Run(l, d, run) && i < |run|
    ensures var s := run[i];
            && |s.lh| + Unused(s.ops) <= LOGSIZE
            && |s.lh| <= LOGSIZE
            && Distinct(s.lh)
            && (forall j :: 0 <= j < |s.lh| ==> l.Home(d, s.lh[j]))
            && (Roomy(l) ==> |s.lh| < l.size)
  {
    BasicRun(l, d, run, i);
  }

  /** Whatever the size of the log area, a call within its budget finds room in the list. */
  lemma ListHasRoom(l: Layout, d: Disk, run: seq<State>, i: nat, j: nat)
    requires Run(l, d, run) && i < |run|
    requires j < |run[i].ops| && run[i].ops[j].used < MAXOPBLOCKS
    ensures |run[i].lh| < LOGSIZE
  {
    BasicRun(l, d, run, i);
    var ops := run[i].ops;
    UnusedAt(ops, j);
    UnusedBounds(ops[..j]);
    UnusedBounds(ops[j + 1..]);
  }

  /** With more than LOGSIZE blocks on disk, a call within its budget can always log one more
      new block. */
  lemma NewBlockFits(l: Layout, d: Disk, run: seq<State>, i: nat, j: nat)
    requires l.size > LOGSIZE && Run(l, d, run) && i < |run|
    requires j < |run[i].ops| && run[i].ops[j].used < MAXOPBLOCKS
    ensures !TooBig(l, run[i])
  {
    ListHasRoom(l, d, run, i, j);
  }

  // ---- a log of LOGSIZE blocks or fewer is too small ----

  /** How many of the first `k` blocks fall to caller `j` of three. */
  function Share(k: nat, j: nat): (n: nat)
    requires j < 3
  {
    (k + 2 - j) / 3
  }

  /** Three calls have begun and, taking turns, logged the first `k` blocks after the log area. */
  predicate Filled(l: Layout, d: Disk, s: State, k: nat) {
    && s.phase.Running?
    && s.disk == d
    && s.durable == 0
    && |s.lh| == k
    && (forall i :: 0 <= i < k ==> s.lh[i] == l.start + l.size + i && s.lh[i] in s.pinned)
    && |s.ops| == 3
    && (forall j :: 0 <= j < 3 ==> s.ops[j].used == Share(k, j) && !s.ops[j].passed)
  }

  lemma NextShare(k: nat, j: nat)
    requires j < 3
    ensures Share(k + 1, j) == Share(k, j) + if j == k % 3 then 1 else 0
    ensures k < LOGSIZE && j == k % 3 ==> Share(k, j) < MAXOPBLOCKS
  {
  }

  lemma ThreeBegin(l: Layout, d: Disk) returns (run: seq<State>)
    requires Empty(l, d)
    ensures Run(l, d, run) && Filled(l, d, run[|run| - 1], 0)
  {
    var s0 := State(d, map[], [], [], Running, [], 0);
    var s1 := s0.(ops := s0.ops + [Op(0, 0, false)], events := s0.events + [Began(0)]);
    var s2 := s1.(ops := s1.ops + [Op(1, 0, false)], events := s1.events + [Began(1)]);
    var s3 := s2.(ops := s2.ops + [Op(2, 0, false)], events := s2.events + [Began(2)]);
    assert BeginStep(l, s0, s1, 0) && BeginStep(l, s1, s2, 1) && BeginStep(l, s2, s3, 2);
    run := [s0, s1, s2, s3];
  }

  /** A run goes on by one more step. */
  lemma Extend(l: Layout, d: Disk, run: seq<State>, s: State)
    requires Run(l, d, run) && Step(l, run[|run| - 1], s)
    ensures Run(l, d, run + [s])
  {
    hide Step, Init;
  }

  /** The state in which call `i` has passed the test. */
  function Passed(s: State, i: nat): (t: State)
    requires i < |s.ops|
  {
    s.(ops := s.ops[i := s.ops[i].(passed := true)])
  }

  /** The state in which call `i` has logged a block that was not in the log. */
  function Appended(s: State, i: nat, w: Write): (t: State)
    requires i < |s.ops|
  {
    s.(lh := s.lh + [w.blockno], ops := s.ops[i := Op(s.ops[i].id, s.ops[i].used + 1, false)],
       pinned := s.pinned[w.blockno := w.data], events := s.events + [Wrote(s.ops[i].id, w)])
  }

  /** The next caller in turn logs the next block. */
  lemma LogNext(l: Layout, d: Disk, s: State, k: nat, v: Block)
    requires Filled(l, d, s, k) && k < LOGSIZE && k < l.size - 1 && l.start + l.size + k < |d|
    ensures var i := k % 3;
            var w := Write(l.start + l.size + k, v);
            && TestStep(l, s, Passed(s, i), i)
            && AppendStep(l, Passed(s, i), Appended(Passed(s, i), i, w), i, w)
            && Filled(l, d, Appended(Passed(s, i), i, w), k + 1)
  {
    hide Share;
    NextShare(k, 0);
    NextShare(k, 1);
    NextShare(k, 2);
  }

  lemma {:induction false} Fill(l: Layout, d: Disk, k: nat) returns (run: seq<State>)
    requires Empty(l, d) && k <= LOGSIZE && k <= l.size - 1 && l.start + l.size + k <= |d|
    ensures Run(l, d, run) && Filled(l, d, run[|run| - 1], k)
  {
    hide AppendStep, TestStep, Init, Empty;
    if k == 0 {
      run := ThreeBegin(l, d);
    } else {
      run := Fill(l, d, k - 1);
      var s := run[|run| - 1];
      var i := (k - 1) % 3;
      var t := Passed(s, i);
      var u := Appended(t, i, Write(l.start + l.size + k - 1, ZeroBlock()));
      LogNext(l, d, s, k - 1, ZeroBlock());
      Extend(l, d, run, t);
      Extend(l, d, run + [t], u);
      run := run + [t] + [u];
    }
  }

  /** Every call can use its whole budget in every run. */
  ghost predicate BudgetsHonoured(l: Layout, d: Disk) {
    forall run: seq<State>, i, j ::
      Run(l, d, run) && 0 <= i < |run| && 0 <= j < |run[i].ops| && run[i].ops[j].used < MAXOPBLOCKS
      ==> !TooBig(l, run[i])
  }

  /** The reservation in begin_op is honest exactly when the on-disk log has more than LOGSIZE
      blocks. An image whose log has LOGSIZE blocks can panic inside the reserved budget. */
  lemma BudgetsHonouredIff(l: Layout, d: Disk)
    requires Empty(l, d) && l.start + l.size + l.size <= |d|
    ensures BudgetsHonoured(l, d) <==> l.size > LOGSIZE
  {
    if l.size > LOGSIZE {
      forall run: seq<State>, i, j |
        Run(l, d, run) && 0 <= i < |run| && 0 <= j < |run[i].ops| && run[i].ops[j].used < MAXOPBLOCKS
        ensures !TooBig(l, run[i])
      {
        NewBlockFits(l, d, run, i, j);
      }
    } else {
      var k := l.size - 1;
      var run := Fill(l, d, k);
      var s := run[|run| - 1];
      assert s.ops[k % 3].used < MAXOPBLOCKS && TooBig(l, s);
    }
  }

  /** The size test precedes absorption: a full log refuses a block it already holds. */
  lemma FullLogRefusesAbsorption(l: Layout, d: Disk) returns (run: seq<State>, b: nat)
    requires Empty(l, d) && l.size > LOGSIZE && l.start + l.size + LOGSIZE <= |d|
    ensures Run(l, d, run) && run[|run| - 1].ops != []
    ensures b in run[|run| - 1].lh && TooBig(l, run[|run| - 1])
  {
    run := Fill(l, d, LOGSIZE);
    b := run[|run| - 1].lh[0];
  }

  // ---- two callers pass the test together ----

  /** Nothing has been committed yet and the log names `n` blocks; the last has contents `v`. */
  predicate Loaded(d: Disk, s: State, n: nat, v: Block) {
    && s.disk == d
    && s.durable == 0
    && |s.lh| == n > 0
    && (forall i :: 0 <= i < |s.lh| ==> s.lh[i] in s.pinned && s.lh[i] < |d|)
    && s.pinned[s.lh[n - 1]] == v
    && (forall j :: 0 <= j < |s.ops| ==> !s.ops[j].passed)
  }

  /** Two different callers, `i` and `j`, pass the test, then both log a new block. */
  lemma TwoLog(l: Layout, d: Disk, s: State, k: nat, v: Block, i: nat, j: nat)
    returns (s1: State, s2: State, s3: State, s4: State)
    requires Filled(l, d, s, k) && k + 2 == l.size <= LOGSIZE && l.start + l.size + l.size <= |d|
    requires i < 3 && j < 3 && i != j && s.ops[i].used < MAXOPBLOCKS && s.ops[j].used < MAXOPBLOCKS
    ensures TestStep(l, s, s1, i) && TestStep(l, s1, s2, j)
    ensures AppendStep(l, s2, s3, i, Write(l.start + l.size + k, v))
    ensures AppendStep(l, s3, s4, j, Write(l.start + l.size + k + 1, v))
    ensures s4.phase.Running? && |s4.ops| == 3 && Loaded(d, s4, l.size, v)
  {
    hide Share;
    s1 := Passed(s, i);
    s2 := Passed(s1, j);
    s3 := Appended(s2, i, Write(l.start + l.size + k, v));
    s4 := Appended(s3, j, Write(l.start + l.size + k + 1, v));
  }

  /** With room for one block, two calls test before either takes the lock; both then log. */
  lemma TwoWriters(l: Layout, d: Disk, v: Block) returns (run: seq<State>)
    requires Empty(l, d) && 2 <= l.size <= LOGSIZE && l.start + l.size + l.size <= |d|
    ensures Run(l, d, run) && run[|run| - 1].phase.Running? && |run[|run| - 1].ops| == 3
    ensures Loaded(d, run[|run| - 1], l.size, v)
  {
    hide TestStep, AppendStep, Loaded, Init, Empty;
    var k := l.size - 2;
    run := Fill(l, d, k);
    var s := run[|run| - 1];
    var i, j := k % 3, (k + 1) % 3;
    NextShare(k, i);
    NextShare(k, j);
    NextShare(k + 1, j);
    var s1, s2, s3, s4 := TwoLog(l, d, s, k, v, i, j);
    Extend(l, d, run, s1);
    Extend(l, d, run + [s1], s2);
    Extend(l, d, run + [s1] + [s2], s3);
    Extend(l, d, run + [s1] + [s2] + [s3], s4);
    run := run + [s1] + [s2] + [s3] + [s4];
  }

  /** Every call ends, and the log is handed to commit(). */
  lemma {:induction false} AllEnd(l: Layout, d: Disk, run: seq<State>, n: nat, v: Block) returns (more: seq<State>)
    requires Run(l, d, run) && run[|run| - 1].phase.Running? && run[|run| - 1].ops != []
    requires Loaded(d, run[|run| - 1], n, v)
    ensures Run(l, d, more) && Loaded(d, more[|more| - 1], n, v)
    ensures var s := more[|more| - 1];
            s.phase.Committing? && s.phase == Committing(d, s.phase.data, 0)
            && |s.phase.data| == n && s.phase.data[n - 1] == v
    decreases |run[|run| - 1].ops|
  {
    var s := run[|run| - 1];
    var ops := s.ops[..0] + s.ops[1..];
    var t := s.(ops := ops, phase := if ops == [] then Committing(s.disk, CachedData(s), 0) else s.phase,
                events := s.events + [Ended(s.ops[0].id)]);
    assert EndStep(l, s, t, 0);
    Extend(l, d, run, t);
    more := run + [t];
    if ops != [] {
      more := AllEnd(l, d, more, n, v);
    }
  }

  /** The commit of an overfull log, after `j` of its log blocks: the header on disk is still
      empty, and the last log block lands on the first home block after the log area. */
  predicate Overrun(l: Layout, d: Disk, s: State, v: Block, j: nat) {
    && |s.disk| == |d| > l.start + l.size
    && s.durable == 0
    && s.phase.Committing?
    && |s.lh| == l.size
    && Described(l, d, s.lh, s.phase.data)
    && s.phase == Committing(d, s.phase.data, j)
    && s.phase.data[l.size - 1] == v
    && s.disk[l.start] == d[l.start]
    && (j == l.size ==> s.disk[l.start + l.size] == v)
  }

  lemma {:induction false} CommitOverruns(l: Layout, d: Disk, v: Block, j: nat) returns (run: seq<State>)
    requires Empty(l, d) && 2 <= l.size < LOGSIZE && l.start + l.size + l.size <= |d| && j <= l.size
    ensures Run(l, d, run) && Overrun(l, d, run[|run| - 1], v, j)
  {
    if j == 0 {
      run := TwoWriters(l, d, v);
      run := AllEnd(l, d, run, l.size, v);
    } else {
      run := CommitOverruns(l, d, v, j - 1);
      var s := run[|run| - 1];
      var w := Todo(l, s)[j - 1];
      assert w == Write(l.start + j, s.phase.data[j - 1]);
      var t := s.(disk := Put(s.disk, w), pinned := s.pinned - {w.blockno},
                  phase := Committing(s.phase.base, s.phase.data, j));
      assert CommitWriteStep(l, s, t);
      Extend(l, d, run, t);
      run := run + [t];
    }
  }

  /** In every run the log stays inside its area, header included. */
  ghost predicate LogBounded(l: Layout, d: Disk) {
    forall run: seq<State>, i :: Run(l, d, run) && 0 <= i < |run| ==> |run[i].lh| < l.size
  }

  ghost predicate CrashSafe(l: Layout, d: Disk) {
    forall run: seq<State>, i :: Run(l, d, run) && 0 <= i < |run| ==> Recoverable(l, d, run[i])
  }

  /** The unlocked size test keeps the log in its area exactly when it has nothing to decide:
      the area holds every reservation, or nothing at all. */
  lemma LogBoundedIff(l: Layout, d: Disk)
    requires Empty(l, d) && l.start + l.size + l.size <= |d|
    ensures LogBounded(l, d) <==> Roomy(l)
  {
    if Roomy(l) {
      forall run: seq<State>, i | Run(l, d, run) && 0 <= i < |run| ensures |run[i].lh| < l.size {
        LogStaysInBounds(l, d, run, i);
      }
    } else {
      var run := TwoWriters(l, d, ZeroBlock());
      assert |run[|run| - 1].lh| == l.size;
    }
  }

  /** Some block other than `b`. */
  function Other(b: Block): (r: Block)
    ensures r != b
  {
    b[0 := if b[0] == 0 then 1 else 0]
  }

  /** With a log area of 2 to LOGSIZE - 1 blocks, a crash in the commit of an overfull log leaves
      the first home block after the log changed by calls that never became durable. */
  lemma OverrunLosesHome(l: Layout, d: Disk) returns (run: seq<State>)
    requires Empty(l, d) && 2 <= l.size < LOGSIZE && l.start + l.size + l.size <= |d|
    ensures Run(l, d, run) && !Recoverable(l, d, run[|run| - 1])
    ensures l.Home(d, l.start + l.size) && run[|run| - 1].durable == 0
    ensures |run[|run| - 1].disk| == |d| && run[|run| - 1].disk[l.start + l.size] != d[l.start + l.size]
  {
    var b := l.start + l.size;
    var v := Other(d[b]);
    run := CommitOverruns(l, d, v, l.size);
    var s := run[|run| - 1];
    assert Empty(l, s.disk);
    RecoverEmpty(l, s.disk);
    assert !l.InLog(b);
  }

  /** Crash safety holds exactly for the log sizes at which no commit can write past the area. */
  lemma CrashSafeIff(l: Layout, d: Disk)
    requires Empty(l, d) && l.start + l.size + l.size <= |d|
    ensures CrashSafe(l, d) <==> Safe(l)
  {
    if Safe(l) {
      forall run: seq<State>, i | Run(l, d, run) && 0 <= i < |run| ensures Recoverable(l, d, run[i]) {
        CrashSafety(l, d, run, i);
      }
    } else {
      var run := OverrunLosesHome(l, d);
      assert !Recoverable(l, d, run[|run| - 1]);
    }
  }

  // ---- when commit finds no buffer ----

  /** Calls that are between the size test and the lock. */
  function Passing(ops: seq<Op>): (n: nat)
    ensures n <= |ops|
  {
    if ops == [] then 0 else (if ops[0].passed then 1 else 0) + Passing(ops[1..])
  }

  lemma {:induction false} PassingConcat(xs: seq<Op>, ys: seq<Op>)
    ensures Passing(xs + ys) == Passing(xs) + Passing(ys)
  {
    if xs == [] {
      assert xs + ys == ys;
    } else {
      PassingConcat(xs[1..], ys);
      assert (xs + ys)[1..] == xs[1..] + ys;
    }
  }

  lemma PassingAt(ops: seq<Op>, i: nat)
    requires i < |ops|
    ensures Passing(ops) == Passing(ops[..i]) + (if ops[i].passed then 1 else 0) + Passing(ops[i + 1..])
  {
    assert ops == ops[..i] + ops[i..];
    PassingConcat(ops[..i], ops[i..]);
    assert ops[i..][1..] == ops[i + 1..];
  }

  lemma PassingOfUpdate(ops: seq<Op>, i: nat, o: Op)
    requires i < |ops|
    ensures Passing(ops[i := o]) == Passing(ops) + (if o.passed then 1 else 0) - (if ops[i].passed then 1 else 0)
  {
    PassingAt(ops, i);
    PassingAt(ops[i := o], i);
    assert ops[i := o][..i] == ops[..i] && ops[i := o][i + 1..] == ops[i + 1..];
  }

  /** Three calls at most are outstanding, so the log overshoots its area by at most what three
      tests passed together allow. */
  predicate Overshoot(l: Layout, s: State) {
    && 1 <= l.size
    && |s.ops| <= 3
    && |s.lh| + Passing(s.ops) <= l.size + 1
    && (s.phase.Halted? ==> |s.lh| >= NBUF)
    && (!s.phase.Running? ==> s.ops == [])
  }

  lemma OvershootCall(l: Layout, s: State, s': State, op: OpId, i: nat, w: Write)
    requires Overshoot(l, s)
    requires BeginStep(l, s, s', op) || TestStep(l, s, s', i) || AppendStep(l, s, s', i, w) || EndStep(l, s, s', i)
    ensures Overshoot(l, s')
  {
    if BeginStep(l, s, s', op) {
      PassingConcat(s.ops, [Op(op, 0, false)]);
    } else if AppendStep(l, s, s', i, w) {
      PassingOfUpdate(s.ops, i, s'.ops[i]);
    } else if EndStep(l, s, s', i) {
      PassingAt(s.ops, i);
      PassingConcat(s.ops[..i], s.ops[i + 1..]);
    }
  }

  lemma OvershootRest(l: Layout, s: State, s': State)
    requires Overshoot(l, s)
    requires CommitWriteStep(l, s, s') || CommitDoneStep(l, s, s') || HaltStep(l, s, s') || CrashStep(l, s, s')
      || RecoverWriteStep(l, s, s') || RecoverDoneStep(l, s, s')
    ensures Overshoot(l, s')
  {
    hide Todo, RecoverWrites, HeadOk, Described;
  }

  lemma OvershootStep(l: Layout, s: State, s': State)
    requires Overshoot(l, s) && Step(l, s, s')
    ensures Overshoot(l, s')
  {
    hide Overshoot, BeginStep, TestStep, AppendStep, EndStep, CommitWriteStep, CommitDoneStep, HaltStep, CrashStep,
         RecoverWriteStep, RecoverDoneStep;
    var any := Write(0, ZeroBlock());
    if op: nat :| BeginStep(l, s, s', op) { OvershootCall(l, s, s', op, 0, any); }
    else if i: nat :| TestStep(l, s, s', i) { OvershootCall(l, s, s', 0, i, any); }
    else if i: nat, w: Write :| AppendStep(l, s, s', i, w) { OvershootCall(l, s, s', 0, i, w); }
    else if i: nat :| EndStep(l, s, s', i) { OvershootCall(l, s, s', 0, i, any); }
    else { OvershootRest(l, s, s'); }
  }

  lemma OvershootInit(l: Layout, d: Disk, s: State)
    requires Init(l, d, s)
    ensures Overshoot(l, s)
  {
    hide Word;
  }

  /** Whatever the size of the log area, the log is never more than two blocks too long for it. */
  lemma {:induction false} OvershootRun(l: Layout, d: Disk, run: seq<State>, i: nat)
    requires Run(l, d, run) && i < |run|
    ensures Overshoot(l, run[i])
  {
    hide Step, Overshoot;
    if i == 0 {
      OvershootInit(l, d, run[0]);
    } else {
      OvershootRun(l, d, run, i - 1);
      OvershootStep(l, run[i - 1], run[i]);
    }
  }

  /** With 27 blocks logged three calls pass the test, and all log a new block. */
  lemma ThreeLog(l: Layout, d: Disk, s: State, v: Block) returns (states: seq<State>)
    requires Filled(l, d, s, 27) && l.size >= 29 && l.start + l.size + LOGSIZE <= |d|
    ensures |states| == 6 && Step(l, s, states[0]) && forall i :: 0 < i < 6 ==> Step(l, states[i - 1], states[i])
    ensures states[5].phase.Running? && states[5].ops != [] && Loaded(d, states[5], NBUF, v)
  {
    var b := l.start + l.size + 27;
    var s1 := Passed(s, 0);
    var s2 := Passed(s1, 1);
    var s3 := Passed(s2, 2);
    var s4 := Appended(s3, 0, Write(b, v));
    var s5 := Appended(s4, 1, Write(b + 1, v));
    var s6 := Appended(s5, 2, Write(b + 2, v));
    assert TestStep(l, s, s1, 0) && TestStep(l, s1, s2, 1) && TestStep(l, s2, s3, 2);
    assert AppendStep(l, s3, s4, 0, Write(b, v));
    assert AppendStep(l, s4, s5, 1, Write(b + 1, v));
    assert AppendStep(l, s5, s6, 2, Write(b + 2, v));
    states := [s1, s2, s3, s4, s5, s6];
  }

  lemma {:induction false} ExtendAll(l: Layout, d: Disk, run: seq<State>, states: seq<State>)
    requires Run(l, d, run) && states != [] && Step(l, run[|run| - 1], states[0])
    requires forall i :: 0 < i < |states| ==> Step(l, states[i - 1], states[i])
    ensures Run(l, d, run + states)
    decreases |states|
  {
    hide Step, Init;
    var n := |states| - 1;
    if n == 0 {
      Extend(l, d, run, states[0]);
      assert states == [states[0]];
    } else {
      ExtendAll(l, d, run, states[..n]);
      Extend(l, d, run + states[..n], states[n]);
      assert run + states == run + states[..n] + [states[n]];
    }
  }

  lemma Halts(l: Layout, d: Disk, s: State)
    requires s.phase.Committing? && Loaded(d, s, NBUF, ZeroBlock())
    ensures Step(l, s, s.(phase := Halted))
  {
    assert HaltStep(l, s, s.(phase := Halted));
  }

  /** A run in which commit panics for lack of a buffer. */
  lemma CommitPanics(l: Layout, d: Disk) returns (run: seq<State>)
    requires Empty(l, d) && l.size >= LOGSIZE - 1 && l.start + l.size + LOGSIZE <= |d|
    ensures Run(l, d, run) && run[|run| - 1].phase.Halted?
  {
    hide Step, Init, Loaded, Empty;
    run := Fill(l, d, 27);
    var states := ThreeLog(l, d, run[|run| - 1], ZeroBlock());
    ExtendAll(l, d, run, states);
    run := AllEnd(l, d, run + states, NBUF, ZeroBlock());
    var s := run[|run| - 1];
    Halts(l, d, s);
    Extend(l, d, run, s.(phase := Halted));
    run := run + [s.(phase := Halted)];
  }

  /** Some commit panics for lack of a buffer. */
  ghost predicate CommitMayPanic(l: Layout, d: Disk) {
    exists run: seq<State> :: Run(l, d, run) && run[|run| - 1].phase.Halted?
  }

  /** commit() can find every buffer pinned exactly when the log can come to name NBUF blocks. */
  lemma CommitMayPanicIff(l: Layout, d: Disk)
    requires Empty(l, d) && l.start + l.size + LOGSIZE <= |d|
    ensures CommitMayPanic(l, d) <==> l.size >= LOGSIZE - 1
  {
    if l.size >= LOGSIZE - 1 {
      var run := CommitPanics(l, d);
      assert Run(l, d, run);
    } else if CommitMayPanic(l, d) {
      var run: seq<State> :| Run(l, d, run) && run[|run| - 1].phase.Halted?;
      OvershootRun(l, d, run, |run| - 1);
    }
  }
}
