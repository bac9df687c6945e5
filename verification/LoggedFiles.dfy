/** Writes to files as logged system calls that overlap: wherever the machine stops, recovery leaves
    the file system as it was after the last commit or, once the next one has taken place, with
    every chunk written since. */
module LoggedFiles {
  import opened Blocks
  import opened RedoLog
  import opened GroupCommit
  import opened TracedLog
  import FS = FileSystem
  import FW = FileWrite
  import FsSpec
  import Sets

  /** The call's identifier is new. */
  predicate Unheard(s: State, op: OpId) {
    forall i :: 0 <= i < |s.events| ==> s.events[i].op != op
  }

  /** What readers see once all events have happened. */
  function Seen(d: Disk, s: State): (r: Disk) {
    Replay(d, s.events, |s.events|)
  }

  /** What a crash cannot undo. */
  function Saved(d: Disk, s: State): (r: Disk)
    requires s.durable <= |s.events|
  {
    Replay(d, s.events, s.durable)
  }

  // ---- the writes of one call ----

  /** Nothing has become durable since `s0`. */
  predicate Before(s0: State, s: State) {
    s.durable == s0.durable && s0.events <= s.events
  }

  /** Since `s0` call `i`, which had written nothing, has handed over the first `j` of its writes. */
  ghost predicate Logging(d: Disk, s0: State, s: State, i: nat, ws: seq<Write>, j: nat) {
    && j <= |ws| && i < |s0.ops| && s0.phase.Running?
    && s.phase.Running? && |s.ops| == |s0.ops|
    && s.ops[i] == Op(s0.ops[i].id, s.ops[i].used, false) && s.ops[i].used <= |FS.Blocknos(ws[..j])|
    && (forall k :: 0 <= k < |s.ops| && k != i ==> s.ops[k] == s0.ops[k])
    && Members(s.lh) == Members(s0.lh) + FS.Blocknos(ws[..j])
    && Before(s0, s)
    && Seen(d, s) == Apply(Seen(d, s0), ws, j)
  }

  lemma BlocknosNext(ws: seq<Write>, j: nat)
    requires j < |ws|
    ensures FS.Blocknos(ws[..j + 1]) == FS.Blocknos(ws[..j]) + {ws[j].blockno}
  {
    assert ws[..j + 1] == ws[..j] + [ws[j]];
    FS.JournalMore([], ws[..j], ws[j]);
  }

  /** The blocks in the log when the last of `ws` is tested. */
  function AtLastTest(lh: seq<nat>, ws: seq<Write>): (bs: set<nat>)
    requires ws != []
  {
    Members(lh) + FS.Blocknos(ws[..|ws| - 1])
  }

  /** Every one of the writes passes log_write's size test. */
  predicate FitsLog(l: Layout, lh: seq<nat>, ws: seq<Write>) {
    ws != [] ==> |AtLastTest(lh, ws)| < LOGSIZE && |AtLastTest(lh, ws)| < l.size - 1
  }

  lemma LoggingRoom(l: Layout, d: Disk, s0: State, s: State, i: nat, ws: seq<Write>, j: nat)
    requires FitsLog(l, s0.lh, ws) && |FS.Blocknos(ws)| <= MAXOPBLOCKS
    requires Logging(d, s0, s, i, ws, j) && j < |ws| && Distinct(s.lh)
    ensures !TooBig(l, s) && |s.lh| + 1 < l.size
    ensures ws[j].blockno !in s.lh ==> s.ops[i].used < MAXOPBLOCKS
    ensures s.ops[i].used + (if ws[j].blockno in s.lh then 0 else 1) <= |FS.Blocknos(ws[..j + 1])|
  {
    DistinctCard(s.lh);
    var done := FS.Blocknos(ws[..j]);
    assert Members(s.lh) <= AtLastTest(s0.lh, ws);
    Sets.CardSubset(Members(s.lh), AtLastTest(s0.lh, ws));
    BlocknosNext(ws, j);
    Sets.CardSubset(done, FS.Blocknos(ws[..j + 1]));
    if ws[j].blockno !in s.lh {
      assert ws[j].blockno !in done;
      assert FS.Blocknos(ws[..j + 1]) <= FS.Blocknos(ws);
      Sets.CardSubset(FS.Blocknos(ws[..j + 1]), FS.Blocknos(ws));
    }
  }

  lemma RunningParts(l: Layout, d: Disk, s: State)
    requires Inv(l, d, s)
    ensures HistoryInv(s) && Distinct(s.lh) && s.durable <= |s.events| && |s.disk| == |d|
  {
    hide Word;
  }

  lemma MembersNext(lh: seq<nat>, b: nat)
    ensures Members(if b in lh then lh else lh + [b]) == Members(lh) + {b}
  {
  }

  /** log_write of the next block, test and append. */
  lemma LogOne(l: Layout, d: Disk, s0: State, s: State, i: nat, ws: seq<Write>, j: nat) returns (t: State, u: State)
    requires FitsLog(l, s0.lh, ws) && |FS.Blocknos(ws)| <= MAXOPBLOCKS
    requires Inv(l, d, s) && Logging(d, s0, s, i, ws, j) && j < |ws| && l.Home(d, ws[j].blockno)
    ensures TestStep(l, s, t, i) && AppendStep(l, t, u, i, ws[j]) && Inv(l, d, t) && Inv(l, d, u)
    ensures Before(s0, t) && Logging(d, s0, u, i, ws, j + 1) && |u.lh| < l.size
    ensures t.disk == s.disk && u.disk == s.disk
  {
    hide Word, FS.Blocknos, Inv, HistoryInv, Replay, Distinct, FitsLog, Members;
    RunningParts(l, d, s);
    LoggingRoom(l, d, s0, s, i, ws, j);
    BlocknosNext(ws, j);
    var b, o := ws[j].blockno, s.ops[i];
    t := Passed(s, i);
    u := t.(lh := if b in t.lh then t.lh else t.lh + [b],
            ops := t.ops[i := Op(o.id, o.used + if b in t.lh then 0 else 1, false)],
            pinned := t.pinned[b := ws[j].data], events := t.events + [Wrote(o.id, ws[j])]);
    MembersNext(s.lh, b);
    TestInv(l, d, s, t, i);
    RunningParts(l, d, t);
    AppendInv(l, d, t, u, i, ws[j]);
    AppendHistory(l, d, t, u, i, ws[j]);
  }

  lemma LoggingStart(d: Disk, s: State, i: nat, ws: seq<Write>)
    requires s.phase.Running? && i < |s.ops| && s.ops[i].used == 0 && !s.ops[i].passed
    ensures Logging(d, s, s, i, ws, 0)
  {
    assert FS.Blocknos(ws[..0]) == {};
  }

  /** The run in which call `i` hands over its first `j` writes. */
  lemma {:induction false} LogAll(l: Layout, d: Disk, run: seq<State>, i: nat, ws: seq<Write>, j: nat)
    returns (more: seq<State>)
    requires Run(l, d, run) && Inv(l, d, run[|run| - 1]) && run[|run| - 1].phase.Running? && |run[|run| - 1].lh| < l.size
    requires i < |run[|run| - 1].ops| && run[|run| - 1].ops[i].used == 0 && !run[|run| - 1].ops[i].passed
    requires FitsLog(l, run[|run| - 1].lh, ws) && |FS.Blocknos(ws)| <= MAXOPBLOCKS && j <= |ws|
    requires forall k :: 0 <= k < |ws| ==> l.Home(d, ws[k].blockno)
    ensures Run(l, d, more) && run <= more && Logging(d, run[|run| - 1], more[|more| - 1], i, ws, j)
    ensures Inv(l, d, more[|more| - 1]) && |more[|more| - 1].lh| < l.size
    ensures forall k :: |run| <= k < |more| ==> Inv(l, d, more[k]) && Before(run[|run| - 1], more[k])
  {
    hide Inv, Init, Step, FitsLog;
    var s0 := run[|run| - 1];
    if j == 0 {
      LoggingStart(d, s0, i, ws);
      more := run;
    } else {
      var sofar := LogAll(l, d, run, i, ws, j - 1);
      var s := sofar[|sofar| - 1];
      var t, u := LogOne(l, d, s0, s, i, ws, j - 1);
      StepOf(l, s, t);
      StepOf(l, t, u);
      Extend(l, d, sofar, t);
      Extend(l, d, sofar + [t], u);
      more := sofar + [t] + [u];
    }
  }

  // ---- the end of a call ----

  /** Call `i` ends while others go on, or as the last one, with which the commit starts. */
  lemma Ends(l: Layout, d: Disk, s: State, i: nat) returns (t: State)
    requires Inv(l, d, s) && s.phase.Running? && i < |s.ops| && !s.ops[i].passed && |s.lh| < l.size
    ensures EndStep(l, s, t, i) && Inv(l, d, t) && t.lh == s.lh && t.disk == s.disk
    ensures Before(s, t) && Seen(d, t) == Seen(d, s)
    ensures |s.ops| > 1 ==> t.phase.Running? && t.ops == s.ops[..i] + s.ops[i + 1..]
    ensures |s.ops| == 1 ==> t.phase.Committing?
  {
    hide Word;
    var ops := s.ops[..i] + s.ops[i + 1..];
    t := s.(ops := ops, events := s.events + [Ended(s.ops[i].id)],
            phase := if ops == [] then Committing(s.disk, CachedData(s), 0) else s.phase);
    EndInv(l, d, s, t, i);
    EndHistory(l, d, s, t, i);
  }

  /** Everything up to and including `e` is durable. */
  predicate After(e: seq<Event>, s: State) {
    s.events == e && s.durable == |e|
  }

  // ---- what a crash leaves ----

  /** Recovery of this disk gives, outside the log, the blocks `a` or the blocks `b`. */
  predicate Either(l: Layout, disk: Disk, a: Disk, b: Disk) {
    HeadOk(l, disk) && (SameHome(l, Recover(l, disk), a) || SameHome(l, Recover(l, disk), b))
  }

  lemma SavedBefore(d: Disk, s0: State, s: State)
    requires Before(s0, s) && s0.durable <= |s0.events|
    ensures Saved(d, s) == Saved(d, s0)
  {
    SamePrefix(d, s0.events, s.events, s0.durable);
  }

  lemma BeforeLeaves(l: Layout, d: Disk, s0: State, s: State, a: Disk, b: Disk)
    requires Inv(l, d, s) && s0.durable <= |s0.events| && Before(s0, s) && SameHome(l, Saved(d, s0), a)
    ensures Either(l, s.disk, a, b)
  {
    hide HeadOk, Recover, Inv, Replay;
    RecoverableNow(l, d, s);
    SavedBefore(d, s0, s);
  }

  lemma AfterLeaves(l: Layout, d: Disk, e: seq<Event>, s: State, a: Disk, b: Disk)
    requires Inv(l, d, s) && After(e, s) && SameHome(l, Replay(d, e, |e|), b)
    ensures Either(l, s.disk, a, b)
  {
    hide HeadOk, Recover, Inv, Replay;
    RecoverableNow(l, d, s);
  }

  lemma ApplySameHome(l: Layout, x: Disk, y: Disk, ws: seq<Write>, k: nat)
    requires SameHome(l, x, y) && k <= |ws|
    ensures SameHome(l, Apply(x, ws, k), Apply(y, ws, k))
  {
    if k > 0 { ApplySameHome(l, x, y, ws, k - 1); }
  }

  /** A crash in any state of the run from `from` on leaves `a` or `b`. */
  predicate Leaves(l: Layout, run: seq<State>, from: nat, a: Disk, b: Disk) {
    forall k :: from <= k < |run| ==> Either(l, run[k].disk, a, b)
  }

  lemma LeavesJoin(l: Layout, r0: seq<State>, r1: seq<State>, r2: seq<State>, r3: seq<State>, a: Disk, b: Disk)
    requires r0 <= r1 && r1 <= r2 && r2 <= r3
    requires Leaves(l, r1, |r0|, a, a) && Leaves(l, r2, |r1|, a, a) && Leaves(l, r3, |r2|, a, b)
    ensures Leaves(l, r3, |r0|, a, b)
  {
    hide HeadOk, Recover, SameHome;
    forall k | |r0| <= k < |r3| ensures Either(l, r3[k].disk, a, b) {
      if k < |r1| {
        assert r3[k] == r1[k] && Either(l, r1[k].disk, a, a);
      } else if k < |r2| {
        assert r3[k] == r2[k] && Either(l, r2[k].disk, a, a);
      }
    }
  }

  /** The writes of a chunk fit an empty log of more than MAXOPBLOCKS blocks. */
  lemma SoleFits(l: Layout, ws: seq<Write>)
    requires l.size > MAXOPBLOCKS && (ws != [] ==> |FS.Blocknos(ws[..|ws| - 1])| < MAXOPBLOCKS)
    ensures FitsLog(l, [], ws)
  {
    if ws != [] { assert AtLastTest([], ws) == FS.Blocknos(ws[..|ws| - 1]); }
  }

  lemma LogHolds(l: Layout, d: Disk, s: State)
    requires Inv(l, d, s)
    ensures |s.lh| == |Members(s.lh)|
  {
    hide Inv;
    RunningParts(l, d, s);
    DistinctCard(s.lh);
  }

  lemma NothingNew(l: Layout, run: seq<State>, a: Disk)
    ensures Leaves(l, run, |run|, a, a)
  {
  }

  lemma Stops(l: Layout, s: State, t: State)
    requires HaltStep(l, s, t)
    ensures Step(l, s, t)
  {
  }

  lemma AtMostBuffers(l: Layout, d: Disk, s: State)
    requires Inv(l, d, s)
    ensures |s.lh| <= NBUF
  {
    hide DiskInv;
  }

  // ---- the file system on the log ----

  /** How a call ends: others are under way, or it is the last and commits, or it is the last and
      finds every buffer pinned. */
  datatype Ending = GoesOn | Commits | Panics

  class LoggedFs {
    const fs: FS.FileSys
    ghost const l: Layout
    ghost const booted: Disk
    ghost var run: seq<State>
    ghost var saved: Disk       // the blocks as the last commit left them

    ghost function Now(): (s: State)
      requires run != []
      reads `run
    {
      run[|run| - 1]
    }

    /** Calls may be under way, none inside log_write. The log lies below the inodes and is not
        full; its readers see the file system, and what is durable is what the last commit left.
        Between calls the two agree. */
    ghost predicate Valid()
      reads this, fs
    {
      && fs.Valid() && l.start + l.size <= fs.sb.inodestart && |booted| == |fs.blk|
      && Run(l, booted, run) && Inv(l, booted, Now()) && Now().phase.Running? && |Now().lh| < l.size
      && (forall k :: 0 <= k < |Now().ops| ==> !Now().ops[k].passed)
      && Now().durable <= |Now().events|
      && SameHome(l, Seen(booted, Now()), fs.blk) && SameHome(l, Saved(booted, Now()), saved)
      && (Now().ops == [] ==> Now().lh == [] && saved == fs.blk)
    }

    constructor (fs: FS.FileSys, ghost l: Layout)
      requires fs.Valid() && l.start + l.size <= fs.sb.inodestart && Empty(l, fs.blk)
      ensures Valid() && this.fs == fs && this.l == l && saved == booted == fs.blk
      ensures Now().ops == [] && Now().lh == [] && Now().events == []
    {
      this.fs, this.l, booted, saved := fs, l, fs.blk, fs.blk;
      run := [State(fs.blk, map[], [], [], Running, [], 0)];
      new;
      InitInv(l, booted, Now());
    }

    /** begin_op, when there is room for another call. */
    ghost method BeginCall(op: OpId)
      requires Valid() && Unheard(Now(), op) && |Now().lh| + (|Now().ops| + 1) * MAXOPBLOCKS <= LOGSIZE
      modifies `run
      ensures Valid() && old(run) <= run && Leaves(l, run, |old(run)|, saved, saved)
      ensures Now().ops == old(Now().ops) + [Op(op, 0, false)] && Now().lh == old(Now().lh)
    {
      hide Init, Step, Inv, Either, Replay, FsSpec.Good;
      var s := Now();
      var t := s.(ops := s.ops + [Op(op, 0, false)], events := s.events + [Began(op)]);
      assert BeginStep(l, s, t, op);
      BeginInv(l, booted, s, t, op);
      RunningParts(l, booted, s);
      BeginHistory(l, booted, s, t, op);
      StepOf(l, s, t);
      Extend(l, booted, run, t);
      run := run + [t];
      BeforeLeaves(l, booted, s, t, saved, saved);
    }

    /** Call `i` hands over `ws`, which turn the blocks `a` into those there are now. */
    ghost method HandOver(i: nat, ws: seq<Write>, a: seq<Block>)
      requires Run(l, booted, run) && Inv(l, booted, Now()) && Now().phase.Running? && |Now().lh| < l.size
      requires forall k :: 0 <= k < |Now().ops| ==> !Now().ops[k].passed
      requires i < |Now().ops| && Now().ops[i].used == 0 && Now().durable <= |Now().events|
      requires FitsLog(l, Now().lh, ws) && |FS.Blocknos(ws)| <= MAXOPBLOCKS
      requires forall k :: 0 <= k < |ws| ==> l.Home(booted, ws[k].blockno)
      requires SameHome(l, Seen(booted, Now()), a) && SameHome(l, Saved(booted, Now()), saved)
      modifies `run
      ensures Run(l, booted, run) && Inv(l, booted, Now()) && Now().phase.Running? && |Now().lh| < l.size
      ensures forall k :: 0 <= k < |Now().ops| ==> !Now().ops[k].passed
      ensures old(run) <= run && |Now().ops| == |old(Now()).ops| && Now().durable <= |Now().events|
      ensures SameHome(l, Seen(booted, Now()), ApplyAll(a, ws)) && SameHome(l, Saved(booted, Now()), saved)
      ensures Members(Now().lh) == Members(old(Now()).lh) + FS.Blocknos(ws)
      ensures Leaves(l, run, |old(run)|, saved, saved)
    {
      hide FitsLog, Step, Init, Inv, Either, Replay, Members;
      var s := Now();
      var more := LogAll(l, booted, run, i, ws, |ws|);
      assert ws[..|ws|] == ws;
      var t := more[|more| - 1];
      ApplySameHome(l, Seen(booted, s), a, ws, |ws|);
      RunningParts(l, booted, t);
      SavedBefore(booted, s, t);
      forall k | |run| <= k < |more| ensures Either(l, more[k].disk, saved, saved) {
        BeforeLeaves(l, booted, s, more[k], saved, saved);
      }
      run := more;
    }

    lemma WritesAreHome()
      requires fs.Journaled() && l.start + l.size <= fs.sb.inodestart && |booted| == |fs.blk|
      ensures forall k :: 0 <= k < |fs.writes| ==> l.Home(booted, fs.writes[k].blockno)
    {
      forall k | 0 <= k < |fs.writes| ensures l.Home(booted, fs.writes[k].blockno) {
        assert fs.writes[k].blockno in fs.logged;
      }
    }

    /** One chunk of filewrite in call `i`, which has written nothing before. Its blocks go to
        log_write in writei's order. `fits` tells whether all of them pass the size test; if not,
        log_write panics, and a crash leaves what the last commit left. */
    method WriteChunk(ghost i: nat, file: FW.File, y: seq<Byte>) returns (w: FS.Res<int>, ghost fits: bool)
      requires Valid() && file.fs == fs && file.Valid() && 0 < |y| <= FW.MAXCHUNK
      requires i < |Now().ops| && Now().ops[i].used == 0
      modifies this, file, fs, file.ip
      ensures w.Panic? <==> FW.OutOfBlocks(fs.sb, old(file.ip.D()), old(fs.blk), old(file.off), |y|)
      ensures w.Ok? ==> w.value == if FS.WriteRefused(old(file.ip.size), old(file.off), |y|) then -1 else |y|
      ensures w == FS.Ok(-1) ==> fs.blk == old(fs.blk)
      ensures w.Ok? && w.value >= 0 ==>
        FW.ChunkWritten(old(file.ip.D()), old(fs.blk), old(file.off), y, file.ip.D(), fs.blk)
      ensures w.Ok? ==> FW.OthersKept(fs.sb, old(fs.blk), fs.blk, file.ip.inum)
      ensures w.Ok? ==> (fits <==> FitsLog(l, old(Now()).lh, fs.writes)) && fs.Journaled() && |fs.logged| <= MAXOPBLOCKS
      ensures w.Ok? && fs.writes != [] ==> |FS.Blocknos(fs.writes[..|fs.writes| - 1])| < MAXOPBLOCKS
      ensures saved == old(saved) && old(run) <= run && Leaves(l, run, |old(run)|, saved, saved)
      ensures w.Ok? && fits ==> Valid() && file.Valid() && |Now().ops| == |old(Now()).ops|
      ensures w.Ok? && fits ==> Members(Now().lh) == Members(old(Now()).lh) + fs.logged
    {
      hide FW.OutOfBlocks, FW.ChunkWritten, FW.OthersKept, FS.WriteRefused, FitsLog, Step, Init, Inv, Either, Replay,
           FsSpec.Good, FsSpec.DinodeIn, Members, Leaves;
      NothingNew(l, run, saved);
      fits := false;
      ghost var s, a := Now(), fs.blk;
      w := file.Transaction(y);
      if w.Ok? {
        ghost var ws := fs.writes;
        fits := FitsLog(l, s.lh, ws);
        if fits {
          WritesAreHome();
          HandOver(i, ws, a);
        }
      }
    }

    /** The commit of the last call, which began in state `s`. */
    ghost method CommitAll(s: State) returns (r: Ending)
      requires Run(l, booted, run) && Inv(l, booted, Now()) && Now().phase.Committing? && Before(s, Now())
      requires s.durable <= |s.events| && SameHome(l, Saved(booted, s), saved)
      requires fs.Valid() && l.start + l.size <= fs.sb.inodestart && |booted| == |fs.blk|
      requires SameHome(l, Seen(booted, Now()), fs.blk) && 1 <= l.size
      modifies `run, `saved
      ensures old(run) <= run && Leaves(l, run, |old(run)|, old(saved), fs.blk)
      ensures r.Panics? <==> |old(Now()).lh| == NBUF
      ensures r.Panics? ==> Now().phase.Halted? && saved == old(saved) && Leaves(l, run, |old(run)|, saved, saved)
      ensures !r.Panics? ==> r.Commits? && Valid() && saved == fs.blk && Now().ops == [] && Now().lh == []
    {
      hide Step, Init, Inv, Either, Replay, FsSpec.Good;
      var t := Now();
      AtMostBuffers(l, booted, t);
      if |t.lh| >= NBUF {
        var u := t.(phase := Halted);
        assert HaltStep(l, t, u);
        HaltInv(l, booted, t, u);
        Stops(l, t, u);
        Extend(l, booted, run, u);
        BeforeLeaves(l, booted, s, u, saved, saved);
        BeforeLeaves(l, booted, s, u, saved, fs.blk);
        run := run + [u];
        return Panics;
      }
      CommitParts(l, booted, t);
      var more := Finish(l, booted, run);
      forall k | |run| <= k < |more| ensures Either(l, more[k].disk, saved, fs.blk) {
        if more[k].durable == t.durable {
          BeforeLeaves(l, booted, s, more[k], saved, fs.blk);
        } else {
          AfterLeaves(l, booted, t.events, more[k], saved, fs.blk);
        }
      }
      run := more;
      saved := fs.blk;
      r := Commits;
    }

    /** end_op by call `i`. While others are under way nothing reaches the disk. The last call
        commits: in every state of the commit a crash leaves the blocks from before or with every
        chunk since. */
    ghost method EndCall(i: nat) returns (r: Ending)
      requires Valid() && i < |Now().ops|
      modifies `run, `saved
      ensures old(run) <= run && Leaves(l, run, |old(run)|, old(saved), fs.blk)
      ensures r.GoesOn? <==> |old(Now()).ops| > 1
      ensures r.Panics? <==> |old(Now()).ops| == 1 && |old(Now()).lh| == NBUF
      ensures r.GoesOn? ==> Valid() && saved == old(saved) && Leaves(l, run, |old(run)|, saved, saved)
      ensures r.GoesOn? ==> |Now().ops| == |old(Now()).ops| - 1 && Now().lh == old(Now()).lh
      ensures r.Panics? ==> Now().phase.Halted? && saved == old(saved) && Leaves(l, run, |old(run)|, saved, saved)
      ensures r.Commits? ==> Valid() && saved == fs.blk && Now().ops == []
    {
      hide Step, Init, Inv, Either, Replay, FsSpec.Good;
      var s := Now();
      var t := Ends(l, booted, s, i);
      StepOf(l, s, t);
      Extend(l, booted, run, t);
      SavedBefore(booted, s, t);
      RunningParts(l, booted, t);
      BeforeLeaves(l, booted, s, t, saved, saved);
      BeforeLeaves(l, booted, s, t, saved, fs.blk);
      run := run + [t];
      if |s.ops| > 1 {
        return GoesOn;
      }
      r := CommitAll(s);
    }

    /** A chunk whose call is the only one under way, in any log area of more than MAXOPBLOCKS
        blocks: log_write and commit meet no panic, and in every state on the way a crash leaves
        the blocks from before the chunk or with all of it. */
    method SoleChunk(file: FW.File, y: seq<Byte>, ghost op: OpId) returns (w: FS.Res<int>)
      requires Valid() && file.fs == fs && file.Valid() && 0 < |y| <= FW.MAXCHUNK
      requires l.size > MAXOPBLOCKS && Now().ops == [] && Unheard(Now(), op)
      modifies this, file, fs, file.ip
      ensures w.Panic? <==> FW.OutOfBlocks(fs.sb, old(file.ip.D()), old(fs.blk), old(file.off), |y|)
      ensures w.Ok? ==> w.value == if FS.WriteRefused(old(file.ip.size), old(file.off), |y|) then -1 else |y|
      ensures w == FS.Ok(-1) ==> fs.blk == old(fs.blk)
      ensures w.Ok? && w.value >= 0 ==>
        FW.ChunkWritten(old(file.ip.D()), old(fs.blk), old(file.off), y, file.ip.D(), fs.blk)
      ensures w.Ok? ==> FW.OthersKept(fs.sb, old(fs.blk), fs.blk, file.ip.inum)
      ensures w.Ok? ==> Valid() && file.Valid() && Now().ops == []
      ensures w.Ok? ==> old(run) <= run && Leaves(l, run, |old(run)|, old(fs.blk), fs.blk)
    {
      hide FW.OutOfBlocks, FW.ChunkWritten, FW.OthersKept, FS.WriteRefused, Step, Init, Inv, Either, Replay, Leaves,
           FsSpec.Good, FsSpec.DinodeIn;
      ghost var a, r0 := saved, run;
      BeginCall(op);
      ghost var r1 := run;
      ghost var fits;
      w, fits := WriteChunk(0, file, y);
      if w.Ok? {
        SoleFits(l, fs.writes);
        ghost var r2 := run;
        LogHolds(l, booted, Now());
        assert Members([]) == {};
        ghost var r := EndCall(0);
        LeavesJoin(l, r0, r1, r2, run, a, fs.blk);
      }
    }
  }
}
