/** The log object of log.c is a run of the logging protocol: every operation on it is the step
    of that name, so what holds in every run holds of the object. */
module TracedLog {
  import opened Blocks
  import opened RedoLog
  import opened GroupCommit
  import L = Log

  /** The steps the object takes are steps of the protocol. */
  lemma StepOf(l: Layout, s: State, t: State)
    requires (exists op :: BeginStep(l, s, t, op)) || (exists i :: TestStep(l, s, t, i))
      || (exists i, w :: AppendStep(l, s, t, i, w)) || (exists i :: EndStep(l, s, t, i))
    ensures Step(l, s, t)
  {
    hide BeginStep, TestStep, AppendStep, EndStep;
  }

  /** The next write of a commit in progress. */
  lemma NextWrite(l: Layout, d: Disk, s: State) returns (t: State)
    requires Inv(l, d, s) && s.phase.Committing? && Described(l, s.phase.base, s.lh, s.phase.data)
    requires |s.lh| < NBUF && s.phase.done < |Todo(l, s)|
    ensures CommitWriteStep(l, s, t) && Inv(l, d, t)
    ensures t.lh == s.lh && t.events == s.events && (t.durable == s.durable || t.durable == |s.events|)
    ensures t.phase == Committing(s.phase.base, s.phase.data, s.phase.done + 1)
  {
    hide Inv, Todo;
    var k := s.phase.done;
    var w := Todo(l, s)[k];
    t := s.(disk := Put(s.disk, w), pinned := s.pinned - {w.blockno},
            phase := Committing(s.phase.base, s.phase.data, k + 1),
            durable := if k == |s.lh| then |s.events| else s.durable);
    CommitWriteInv(l, d, s, t);
  }

  /** The end of a commit. */
  lemma LastOfCommit(l: Layout, d: Disk, s: State) returns (t: State)
    requires Inv(l, d, s) && s.phase.Committing? && Described(l, s.phase.base, s.lh, s.phase.data)
    requires |s.lh| < NBUF && s.phase.done == |Todo(l, s)|
    ensures CommitDoneStep(l, s, t) && Inv(l, d, t)
    ensures t.phase.Running? && t.lh == [] && t.ops == [] && t.pinned == map[]
    ensures t.events == s.events && t.durable == |s.events| && t.disk == ApplyAll(s.phase.base, Todo(l, s))
  {
    hide Word, PutHead, CommitWrites, HistoryInv, SpaceInv;
    t := s.(lh := [], phase := Running, durable := |s.events|);
    CommitDoneInv(l, d, s, t);
    HistoryBounds(s);
    assert Uninstalled(s) == {};
    assert s.pinned.Keys == {};
  }

  lemma CommitParts(l: Layout, d: Disk, s: State)
    requires Inv(l, d, s) && s.phase.Committing? && |s.lh| < NBUF
    ensures Described(l, s.phase.base, s.lh, s.phase.data) && s.phase.done <= |Todo(l, s)|
  {
    hide Word, PutHead, CommitWrites, HistoryInv, SpaceInv;
    HistoryBounds(s);
  }

  /** The protocol finishes the commit in progress, write by write. */
  lemma {:induction false} Finish(l: Layout, d: Disk, run: seq<State>) returns (more: seq<State>)
    requires Run(l, d, run) && Inv(l, d, run[|run| - 1])
    requires run[|run| - 1].phase.Committing? && |run[|run| - 1].lh| < NBUF
    requires Described(l, run[|run| - 1].phase.base, run[|run| - 1].lh, run[|run| - 1].phase.data)
    ensures Run(l, d, more) && run <= more
    ensures forall k :: |run| <= k < |more| ==> Inv(l, d, more[k])
    ensures var s, t := run[|run| - 1], more[|more| - 1];
            && t.phase.Running? && t.lh == [] && t.ops == [] && t.pinned == map[]
            && t.events == s.events && t.durable == |s.events|
            && t.disk == ApplyAll(s.phase.base, Todo(l, s))
    ensures var s := run[|run| - 1];
            forall k :: |run| <= k < |more| ==>
              more[k].events == s.events && (more[k].durable == s.durable || more[k].durable == |s.events|)
    decreases |Todo(l, run[|run| - 1])| - run[|run| - 1].phase.done
  {
    hide Inv, CommitWrites, Init, CommitWriteStep, CommitDoneStep;
    var s := run[|run| - 1];
    CommitParts(l, d, s);
    if s.phase.done == |Todo(l, s)| {
      var t := LastOfCommit(l, d, s);
      Extend(l, d, run, t);
      more := run + [t];
    } else {
      var t := NextWrite(l, d, s);
      Extend(l, d, run, t);
      more := Finish(l, d, run + [t]);
    }
  }

  /** The protocol stops at a commit without a buffer; its disk can be recovered. */
  lemma Halt(l: Layout, d: Disk, run: seq<State>) returns (more: seq<State>)
    requires Safe(l) && Run(l, d, run) && run[|run| - 1].phase.Committing? && |run[|run| - 1].lh| >= NBUF
    ensures Run(l, d, more) && |more| == |run| + 1 && run <= more
    ensures HaltStep(l, run[|run| - 1], more[|more| - 1]) && Recoverable(l, d, more[|more| - 1])
  {
    hide Init, Recoverable;
    var s := run[|run| - 1];
    var t := s.(phase := Halted);
    assert HaltStep(l, s, t);
    Extend(l, d, run, t);
    more := run + [t];
    CrashSafety(l, d, more, |more| - 1);
  }

  lemma PinsCount(p: map<nat, Block>, blocks: seq<nat>)
    requires Distinct(blocks) && (forall b :: b in p ==> b in blocks) && forall b :: b in blocks ==> b in p
    ensures |p| == |blocks|
  {
    DistinctCard(blocks);
    assert p.Keys == Members(blocks);
    assert |p| == |p.Keys|;
  }

  /** What holds when a commit starts: the pinned blocks are the logged ones, home blocks all; and
      unless they take up every buffer they are a transaction that fits the log. */
  lemma CommitStart(l: Layout, d: Disk, s: State)
    requires Inv(l, d, s) && (forall b :: b in s.lh ==> b in s.pinned) && s.phase == Committing(s.disk, CachedData(s), 0)
    ensures s.ops == [] && Empty(l, s.disk) && |s.lh| <= NBUF && (s.lh != [] ==> l.size >= 2)
    ensures (forall i :: 0 <= i < |s.lh| ==> l.Home(s.disk, s.lh[i])) && forall b :: b in s.pinned ==> b in s.lh
    ensures |s.pinned| == |s.lh|
    ensures |s.lh| < NBUF ==> TransOk(l, s.disk, s.lh, CachedData(s))
  {
    hide Word, PutHead, CommitWrites, HistoryInv;
    HistoryBounds(s);
    assert forall b :: b in s.pinned ==> b in s.lh;
    PinsCount(s.pinned, s.lh);
  }

  /** Writing every pinned block home unpins everything. */
  lemma AllUnpinned(p: map<nat, Block>, blocks: seq<nat>)
    requires forall b :: b in p ==> b in blocks
    ensures L.Unpinned(p, blocks, |blocks|) == map[]
  {
    L.UnpinnedKeys(p, blocks, |blocks|);
    assert L.Unpinned(p, blocks, |blocks|).Keys == {};
  }

  class Traced {
    const log: L.Log
    ghost const booted: Disk
    ghost var run: seq<State>

    /** The protocol state the object is in. */
    ghost function Now(): (s: State)
      requires run != []
      reads this
    {
      run[|run| - 1]
    }

    /** The object's fields are those of the last state of a run. */
    ghost predicate Valid()
      reads this, log, log.block, log.dev
    {
      && log.Valid()
      && Safe(log.layout)
      && Run(log.layout, booted, run)
      && Now().disk == log.dev.disk
      && Now().pinned == log.dev.pinned
      && Now().lh == log.Blocks()
      && |Now().ops| == log.outstanding
      && !Now().phase.Recovering? && !Now().phase.Halted?
      && (log.committing <==> Now().phase.Committing?)
      && (log.committing ==>
            && (forall b :: b in Now().lh ==> b in Now().pinned)
            && Now().phase == Committing(log.dev.disk, CachedData(Now()), 0))
    }

    constructor (l: Layout, dev: L.Device)
      requires Empty(l, dev.disk) && Safe(l) && dev.pinned == map[]
      ensures Valid() && fresh(log) && fresh(log.block) && log.dev == dev && log.layout == l
      ensures booted == dev.disk && Now().events == []
    {
      log := new L.Log(l, dev);
      booted := dev.disk;
      run := [State(dev.disk, map[], [], [], Running, [], 0)];
    }

    /** A crash now is harmless: recovery would yield every call that has become durable, whole. */
    lemma CrashNow()
      requires Valid()
      ensures Recoverable(log.layout, booted, Now())
      ensures Live(Now().events, Now().durable) == {} && NotSplitAt(Now().events, Now().durable)
    {
      CrashSafety(log.layout, booted, run, |run| - 1);
    }

    method BeginOp(ghost op: OpId) returns (r: L.Admission)
      requires Valid() && forall i :: 0 <= i < |Now().events| ==> Now().events[i].op != op
      modifies this, log`outstanding
      ensures Valid()
      ensures r.MustSleep? ==> run == old(run)
      ensures r.Admitted? ==> |run| == |old(run)| + 1 && BeginStep(log.layout, old(Now()), Now(), op)
    {
      hide Init, Step;
      r := log.BeginOp();
      if r == L.Admitted {
        ghost var s := Now();
        ghost var t := s.(ops := s.ops + [Op(op, 0, false)], events := s.events + [Began(op)]);
        assert BeginStep(log.layout, s, t, op);
        StepOf(log.layout, s, t);
        Extend(log.layout, booted, run, t);
        run := run + [t];
      }
    }

    /** The unlocked test of log_write by call `i`; an outstanding call meets no other panic. */
    method LogTest(ghost i: nat) returns (r: L.LogResult)
      requires Valid() && i < |Now().ops| && !Now().ops[i].passed
      modifies `run
      ensures Valid()
      ensures r.Panic? <==> TooBig(log.layout, old(Now()))
      ensures r.Panic? ==> run == old(run)
      ensures r.Logged? ==> |run| == |old(run)| + 1 && TestStep(log.layout, old(Now()), Now(), i)
    {
      hide Init, Step;
      r := log.LogTest();
      if r == L.Logged {
        ghost var s := Now();
        EndOpNeverPanics(log.layout, booted, run, |run| - 1);
        assert TestStep(log.layout, s, Passed(s, i), i);
        StepOf(log.layout, s, Passed(s, i));
        Extend(log.layout, booted, run, Passed(s, i));
        run := run + [Passed(s, i)];
      }
    }

    /** The locked part of log_write by call `i`, within its budget: the list never overflows. */
    method LogAppend(ghost i: nat, b: Word32, data: Block)
      requires Valid() && i < |Now().ops| && Now().ops[i].passed
      requires log.layout.Home(log.dev.disk, b)
      requires b in Now().lh || Now().ops[i].used < MAXOPBLOCKS
      modifies this, log`n, log.block, log.dev`pinned
      ensures Valid()
      ensures |run| == |old(run)| + 1 && AppendStep(log.layout, old(Now()), Now(), i, Write(b, data))
    {
      hide Init, Step;
      ghost var s := Now();
      EndOpNeverPanics(log.layout, booted, run, |run| - 1);
      if b !in s.lh {
        ListHasRoom(log.layout, booted, run, |run| - 1, i);
      }
      log.LogAppend(b, data);
      ghost var o := Op(s.ops[i].id, s.ops[i].used + if b in s.lh then 0 else 1, false);
      ghost var t := s.(lh := if b in s.lh then s.lh else s.lh + [b], ops := s.ops[i := o],
                        pinned := s.pinned[b := data],
                        events := s.events + [Wrote(s.ops[i].id, Write(b, data))]);
      assert AppendStep(log.layout, s, t, i, Write(b, data));
      StepOf(log.layout, s, t);
      Extend(log.layout, booted, run, t);
      run := run + [t];
    }

    /** end_op never panics, and hands over exactly when no call is left. */
    method EndOp(ghost i: nat) returns (doCommit: bool)
      requires Valid() && i < |Now().ops| && !Now().ops[i].passed
      modifies this, log`outstanding, log`committing
      ensures Valid()
      ensures |run| == |old(run)| + 1 && EndStep(log.layout, old(Now()), Now(), i)
      ensures doCommit == log.committing
    {
      hide Init, Step, Word;
      ghost var s := Now();
      RunInv(log.layout, booted, run, |run| - 1);
      EndOpNeverPanics(log.layout, booted, run, |run| - 1);
      var r;
      r, doCommit := log.EndOp();
      ghost var ops := s.ops[..i] + s.ops[i + 1..];
      ghost var t := s.(ops := ops, events := s.events + [Ended(s.ops[i].id)],
                        phase := if ops == [] then Committing(s.disk, CachedData(s), 0) else s.phase);
      assert EndStep(log.layout, s, t, i);
      StepOf(log.layout, s, t);
      Extend(log.layout, booted, run, t);
      run := run + [t];
    }

    /** When commit() starts, it can. */
    lemma ReadyToCommit()
      requires Valid() && log.committing
      ensures Inv(log.layout, booted, Now()) && Now().ops == []
      ensures log.Committable() && Empty(log.layout, log.dev.disk)
      ensures forall b :: b in log.dev.pinned ==> b in log.Blocks()
      ensures |log.dev.pinned| == log.n <= NBUF
      ensures log.n < NBUF ==> Described(log.layout, log.dev.disk, log.Blocks(), log.Data())
      ensures log.Data() == Now().phase.data
    {
      hide Word, Init, Step, Inv, Empty;
      RunInv(log.layout, booted, run, |run| - 1);
      CommitStart(log.layout, booted, Now());
      assert log.Data() == CachedData(Now());
    }

    /** commit() and the end of end_op are the rest of the protocol's commit: afterwards every
        call so far is durable and nothing is pinned. With NBUF blocks logged commit() panics for
        lack of a buffer before it has written anything, and a crash leaves what it would have
        left before. */
    method Commit() returns (r: L.LogResult)
      requires Valid() && log.committing
      modifies this, log`n, log`committing, log.dev
      ensures r.Panic? <==> old(log.n) == NBUF
      ensures r.Panic? ==> |run| == |old(run)| + 1 && Run(log.layout, booted, run) && HaltStep(log.layout, old(Now()), Now())
      ensures r.Panic? ==> log.dev.disk == old(log.dev.disk) == Now().disk && Recoverable(log.layout, booted, Now())
      ensures r.Logged? ==> Valid() && !log.committing && log.n == 0 && log.dev.pinned == map[]
      ensures r.Logged? ==> old(run) <= run && Now().events == old(Now().events) && Now().durable == |Now().events|
    {
      hide Word, PutHead, CommitWrites, RecoverWrites, Init, Step, Distinct, L.Unpinned, Inv, TransOk, Recoverable, Empty;
      ReadyToCommit();
      ghost var more := run;
      if log.n < NBUF {
        AllUnpinned(log.dev.pinned, log.Blocks());
        more := Finish(log.layout, booted, run);
      } else {
        more := Halt(log.layout, booted, run);
      }
      r := log.Commit();
      run := more;
      if r == L.Logged {
        log.committing := false;
        assert log.Blocks() == [];
      }
    }
  }
}
