/** log.c: the in-memory log, its commit and its recovery, against the pure redo log. */
module Log {
  import opened Blocks
  import opened RedoLog
  import Sets

  datatype Option<T> = None | Some(value: T)

  /** Every buffer of the cache is pinned. */
  predicate Full(p: map<nat, Block>) {
    |p| >= NBUF
  }

  /** The buffer cache as the log sees it: a disk, and pinned buffers whose contents are
      newer than the disk. Buffers that are not pinned can be recycled. */
  class Device {
    var disk: Disk
    var pinned: map<nat, Block>
    ghost var trace: seq<Write>    // every block write issued, in order

    constructor (d: Disk)
      ensures disk == d && pinned == map[] && trace == []
    {
      disk, pinned, trace := d, map[], [];
    }

    /** What a reader of block `b` sees. */
    function Contents(b: nat): (r: Block)
      requires b < |disk|
      reads this
    {
      if b in pinned then pinned[b] else disk[b]
    }

    /** The contents of a block, in a buffer; the panic is for having none left. */
    method Bread(b: nat) returns (r: Option<Block>)
      requires b < |disk|
      ensures r.None? <==> b !in pinned && Full(pinned)
      ensures r.Some? ==> r.value == Contents(b)
    {
      if b in pinned {
        return Some(pinned[b]);
      } else if Full(pinned) {
        return None;
      }
      r := Some(disk[b]);
    }

    /** Write through; the buffer is clean afterwards. */
    method Bwrite(b: nat, data: Block)
      requires b < |disk|
      modifies this
      ensures disk == Put(old(disk), Write(b, data))
      ensures pinned == old(pinned) - {b}
      ensures b !in old(pinned) ==> pinned == old(pinned)
      ensures trace == old(trace) + [Write(b, data)]
    {
      disk := disk[b := data];
      pinned := pinned - {b};
      trace := trace + [Write(b, data)];
    }

    method Pin(b: nat, data: Block)
      modifies `pinned
      ensures pinned == old(pinned)[b := data]
    {
      pinned := pinned[b := data];
    }
  }

  /** Buffers still pinned once the first `k` of `blocks` have been written through. */
  function Unpinned(p: map<nat, Block>, blocks: seq<nat>, k: nat): (q: map<nat, Block>)
    requires k <= |blocks|
    ensures q.Keys <= p.Keys && forall b :: b in q ==> q[b] == p[b]
  {
    if k == 0 then p else Unpinned(p, blocks, k - 1) - {blocks[k - 1]}
  }

  lemma {:induction false} UnpinnedKeys(p: map<nat, Block>, blocks: seq<nat>, k: nat)
    requires k <= |blocks|
    ensures Unpinned(p, blocks, k) == p - set i | 0 <= i < k :: blocks[i]
  {
    if k > 0 { UnpinnedKeys(p, blocks, k - 1); }
  }

  lemma UnpinnedNotFull(p: map<nat, Block>, blocks: seq<nat>, k: nat)
    requires k <= |blocks| && !Full(p)
    ensures !Full(Unpinned(p, blocks, k))
  {
    hide Unpinned;
    var q := Unpinned(p, blocks, k);
    Sets.CardSubset(q.Keys, p.Keys);
    assert |q| == |q.Keys| && |p| == |p.Keys|;
  }

  datatype Admission = Admitted | MustSleep
  datatype LogResult = Logged | Panic

  class Log {
    const layout: Layout
    const dev: Device
    var outstanding: int
    var committing: bool
    var n: nat
    var block: array<Word32>

    ghost predicate Valid()
      reads this, block, dev
    {
      && block.Length == LOGSIZE
      && layout.Fits(dev.disk)
      && 0 <= outstanding
      && n <= LOGSIZE
    }

    /** The in-memory header's list of logged block numbers. */
    function Blocks(): (s: seq<Word32>)
      requires n <= block.Length
      reads this, block
    {
      block[..n]
    }

    /** Cached contents of the logged blocks, in log order. */
    ghost function Data(): (s: seq<Block>)
      requires Valid()
      reads this, block, dev
      ensures |s| == n
    {
      seq(n, i requires Valid() && 0 <= i < n reads this, block, dev =>
        if block[i] < |dev.disk| then dev.Contents(block[i]) else ZeroBlock())
    }

    /** The logged blocks are home blocks and no log block is pinned; and if there is a buffer to
        commit with, the logged blocks fit the log. */
    ghost predicate Committable()
      reads this, block, dev
    {
      && Valid()
      && (forall i :: 0 <= i < n ==> layout.Home(dev.disk, Blocks()[i]))
      && (forall b :: b in dev.pinned ==> !layout.InLog(b))
      && (n > 0 ==> layout.size >= 2)
      && (!Full(dev.pinned) || n == 0 ==> TransOk(layout, dev.disk, Blocks(), Data()))
    }

    lemma DataIs(i: nat)
      requires Valid() && i < n && block[i] < |dev.disk|
      ensures Data()[i] == dev.Contents(block[i])
    {
    }

    constructor (l: Layout, d: Device)
      requires l.Fits(d.disk)
      ensures Valid() && fresh(block) && layout == l && dev == d
      ensures outstanding == 0 && !committing && n == 0
    {
      layout, dev := l, d;
      outstanding, committing, n := 0, false, 0;
      block := new Word32[LOGSIZE];
    }

    /** One pass of the admission loop: the operation starts, or its thread sleeps. */
    method BeginOp() returns (r: Admission)
      requires Valid()
      modifies `outstanding
      ensures Valid()
      ensures r == Admitted <==> !committing && n + (old(outstanding) + 1) * MAXOPBLOCKS <= LOGSIZE
      ensures outstanding == old(outstanding) + if r == Admitted then 1 else 0
    {
      if committing {
        return MustSleep;
      } else if n + (outstanding + 1) * MAXOPBLOCKS > LOGSIZE {
        return MustSleep;
      } else {
        outstanding := outstanding + 1;
        return Admitted;
      }
    }

    /** The critical section of end_op: the last operation out claims the commit. */
    method EndOp() returns (r: LogResult, doCommit: bool)
      requires Valid() && outstanding >= 1
      modifies `outstanding, `committing
      ensures r == Panic <==> old(committing)
      ensures r == Logged ==> Valid() && outstanding == old(outstanding) - 1
      ensures r == Logged ==> doCommit == committing == (outstanding == 0)
    {
      outstanding := outstanding - 1;
      if committing {
        return Panic, false;
      }
      doCommit := outstanding == 0;
      committing := doCommit;
      r := Logged;
    }

    /** The tests at the head of log_write, made before the lock is taken. */
    method LogTest() returns (r: LogResult)
      ensures r == Panic <==> n >= LOGSIZE || n >= layout.size - 1 || outstanding < 1
    {
      if n >= LOGSIZE || n >= layout.size - 1 {
        return Panic;
      }
      if outstanding < 1 {
        return Panic;
      }
      r := Logged;
    }

    /** The locked part of log_write: record a modified block, absorbing a repeat, and pin its
        buffer. It does not test again; other calls may have logged blocks since LogTest. */
    method LogAppend(b: Word32, data: Block)
      requires Valid() && b < |dev.disk|
      requires n < LOGSIZE || b in Blocks()
      modifies `n, block, dev`pinned
      ensures Valid()
      ensures Blocks() == if b in old(Blocks()) then old(Blocks()) else old(Blocks()) + [b]
      ensures dev.pinned == old(dev.pinned)[b := data]
    {
      var i := 0;
      while i < n && block[i] != b
        invariant 0 <= i <= n
        invariant b !in block[..i]
      {
        i := i + 1;
      }
      assert i < n ==> block[i] == b;
      block[i] := b;
      if i == n {
        n := n + 1;
        assert block[..n] == old(block[..n]) + [b];
      } else {
        assert block[..n] == old(block[..n]);
      }
      dev.Pin(b, data);
    }

    /** log_write when nothing comes between test and lock. The size test comes before
        absorption, so a full log refuses even a block it already holds. */
    method LogWrite(b: Word32, data: Block) returns (r: LogResult)
      requires Valid() && b < |dev.disk|
      modifies `n, block, dev`pinned
      ensures Valid()
      ensures r == Panic <==> old(n) >= LOGSIZE || old(n) >= layout.size - 1 || outstanding < 1
      ensures r == Panic ==> n == old(n) && block[..] == old(block[..]) && dev.pinned == old(dev.pinned)
      ensures r == Logged ==> Blocks() == if b in old(Blocks()) then old(Blocks()) else old(Blocks()) + [b]
      ensures r == Logged ==> dev.pinned == old(dev.pinned)[b := data]
    {
      r := LogTest();
      if r == Logged {
        LogAppend(b, data);
      }
    }

    /** One block from the cache to its log block, for which there is a buffer. */
    method CopyToLog(tail: nat, ghost d0: Disk, ghost data: seq<Block>)
      requires Valid() && tail < n && TransOk(layout, d0, Blocks(), data) && !Full(dev.pinned)
      requires layout.start + 1 + tail !in dev.pinned
      requires data[tail] == if block[tail] in dev.pinned then dev.pinned[block[tail]] else d0[block[tail]]
      requires dev.disk == Apply(d0, CommitWrites(layout, d0, Blocks(), data), tail)
      modifies dev
      ensures var ws := CommitWrites(layout, d0, Blocks(), data);
              dev.disk == Apply(d0, ws, tail + 1) && dev.trace == old(dev.trace) + [ws[tail]]
      ensures dev.pinned == old(dev.pinned)
    {
      hide Word, PutWord, PutWords, PutHead, Distinct, CommitWrites, Full;
      CommitLogOnly(layout, d0, Blocks(), data, tail);
      var from := dev.Bread(block[tail]);
      dev.Bwrite(layout.start + 1 + tail, from.value);
    }

    /** Copy modified blocks from the cache to the log: the first `n` writes of the commit. It
        panics, before the first, if every buffer is pinned. */
    method WriteLog() returns (r: LogResult)
      requires Committable()
      modifies dev
      ensures r == Panic <==> n > 0 && Full(old(dev.pinned))
      ensures r == Panic ==> dev.disk == old(dev.disk) && dev.trace == old(dev.trace)
      ensures r == Logged ==> var ws := CommitWrites(layout, old(dev.disk), old(Blocks()), old(Data()));
              dev.disk == Apply(old(dev.disk), ws, n) && dev.trace == old(dev.trace) + ws[..n]
      ensures dev.pinned == old(dev.pinned)
    {
      hide Word, PutWord, PutWords, PutHead, Distinct, CommitWrites, Full, Data;
      ghost var d0, p0, blocks, data := dev.disk, dev.pinned, Blocks(), Data();
      ghost var ws := CommitWrites(layout, d0, blocks, data);
      forall i | 0 <= i < n ensures data[i] == if block[i] in p0 then p0[block[i]] else d0[block[i]] {
        DataIs(i);
      }
      var tail := 0;
      while tail < n
        invariant 0 <= tail <= n
        invariant dev.disk == Apply(d0, ws, tail)
        invariant dev.trace == old(dev.trace) + ws[..tail]
        invariant dev.pinned == old(dev.pinned) && (tail > 0 ==> !Full(dev.pinned))
      {
        var to := dev.Bread(layout.start + 1 + tail);
        if to.None? {
          return Panic;
        }
        AppendNext(old(dev.trace), ws, tail);
        CopyToLog(tail, d0, data);
        tail := tail + 1;
      }
      r := Logged;
    }

    /** Write the in-memory header to disk. */
    method WriteHead() returns (r: LogResult)
      requires Valid() && layout.start !in dev.pinned
      modifies dev
      ensures r == Panic <==> Full(old(dev.pinned))
      ensures r == Panic ==> dev.disk == old(dev.disk) && dev.trace == old(dev.trace)
      ensures r == Logged ==> var w := Write(layout.start, PutHead(old(dev.disk[layout.start]), Blocks()));
              dev.disk == Put(old(dev.disk), w) && dev.trace == old(dev.trace) + [w]
      ensures dev.pinned == old(dev.pinned)
    {
      var buf := dev.Bread(layout.start);
      if buf.None? {
        return Panic;
      }
      var hb := PutWord(buf.value, 0, n);
      var i := 0;
      while i < n
        invariant 0 <= i <= n
        invariant hb == PutWords(PutWord(buf.value, 0, n), 1, block[..i])
      {
        assert block[..i + 1][..i] == block[..i];
        hb := PutWord(hb, i + 1, block[i]);
        i := i + 1;
      }
      dev.Bwrite(layout.start, hb);
      r := Logged;
    }

    /** The in-memory header says what the on-disk header says. */
    ghost predicate HeadLoaded()
      reads this, block, dev
    {
      && Valid()
      && n == Count(layout, dev.disk)
      && forall i :: 0 <= i < n ==> block[i] == HomeOf(layout, dev.disk, i)
    }

    /** Read the header from disk into memory, where the list has LOGSIZE entries. */
    method ReadHead() returns (r: LogResult)
      requires Valid() && Count(layout, dev.disk) <= LOGSIZE && layout.start !in dev.pinned
      modifies `n, block
      ensures r == Panic <==> Full(dev.pinned)
      ensures r == Logged ==> HeadLoaded()
    {
      var buf := dev.Bread(layout.start);
      if buf.None? {
        return Panic;
      }
      n := Word(buf.value, 0);
      var i := 0;
      while i < n
        invariant 0 <= i <= n == Word(buf.value, 0)
        invariant forall j :: 0 <= j < i ==> block[j] == Word(buf.value, j + 1)
      {
        block[i] := Word(buf.value, i + 1);
        i := i + 1;
      }
      r := Logged;
    }

    /** Copy the log blocks to their home locations: all writes of a recovery but the last. */
    method InstallTrans() returns (r: LogResult)
      requires HeadLoaded() && HeadOk(layout, dev.disk)
      requires forall b :: b in dev.pinned ==> !layout.InLog(b)
      modifies dev
      ensures r == Panic <==> n > 0 && Full(old(dev.pinned))
      ensures r == Panic ==> dev.disk == old(dev.disk) && dev.trace == old(dev.trace) && dev.pinned == old(dev.pinned)
      ensures r == Logged ==> var ws := RecoverWrites(layout, old(dev.disk));
              dev.disk == Apply(old(dev.disk), ws, n) && dev.trace == old(dev.trace) + ws[..n]
      ensures r == Logged ==> dev.pinned == Unpinned(old(dev.pinned), Blocks(), n)
    {
      hide Word, PutWord, PutWords, PutHead, RecoverWrites, Full;
      ghost var d0, blocks := dev.disk, Blocks();
      ghost var ws := RecoverWrites(layout, d0);
      var tail := 0;
      while tail < n
        invariant 0 <= tail <= n
        invariant dev.disk == Apply(d0, ws, tail)
        invariant dev.trace == old(dev.trace) + ws[..tail]
        invariant dev.pinned == Unpinned(old(dev.pinned), blocks, tail)
        invariant tail > 0 ==> !Full(old(dev.pinned))
      {
        InstallKeepsLog(layout, d0, tail, layout.start + 1 + tail);
        AppendNext(old(dev.trace), ws, tail);
        RecoverWriteAt(layout, d0, tail);
        if !Full(old(dev.pinned)) { UnpinnedNotFull(old(dev.pinned), blocks, tail); }
        var lbuf := dev.Bread(layout.start + 1 + tail);
        if lbuf.None? {
          return Panic;
        }
        assert ws[tail] == Write(block[tail], lbuf.value);
        var dbuf := dev.Bread(block[tail]);
        dev.Bwrite(block[tail], lbuf.value);
        tail := tail + 1;
      }
      r := Logged;
    }

    /** Install and erase: exactly the writes of a recovery, in order. */
    method InstallAndErase()
      requires HeadLoaded() && HeadOk(layout, dev.disk) && !Full(dev.pinned)
      requires forall b :: b in dev.pinned ==> !layout.InLog(b)
      modifies `n, dev
      ensures Valid() && n == 0
      ensures dev.trace == old(dev.trace) + RecoverWrites(layout, old(dev.disk))
      ensures dev.disk == Recover(layout, old(dev.disk))
      ensures dev.pinned == Unpinned(old(dev.pinned), old(Blocks()), old(n))
    {
      hide Word, PutWord, PutWords, Full;
      ghost var d0 := dev.disk;
      ghost var ws := RecoverWrites(layout, d0);
      var r := InstallTrans();
      UnpinnedNotFull(old(dev.pinned), Blocks(), n);
      InstallKeepsLog(layout, d0, n, layout.start);
      AppendNext(old(dev.trace), ws, n);
      assert ws[..n + 1] == ws;
      n := 0;
      assert Blocks() == [];
      r := WriteHead();
    }

    /** The whole commit issues exactly CommitWrites, in that order, and unpins what it logged. */
    method Commit() returns (r: LogResult)
      requires Committable() && Empty(layout, dev.disk)
      modifies `n, dev
      ensures r == Panic <==> old(n) > 0 && Full(old(dev.pinned))
      ensures r == Panic ==> n == old(n) && dev.disk == old(dev.disk) && dev.trace == old(dev.trace)
      ensures r == Panic ==> dev.pinned == old(dev.pinned)
      ensures r == Logged ==> Valid() && n == 0
      ensures r == Logged && old(n) == 0 ==> dev.disk == old(dev.disk) && dev.trace == old(dev.trace)
      ensures r == Logged && old(n) > 0 ==>
        var ws := CommitWrites(layout, old(dev.disk), old(Blocks()), old(Data()));
        dev.trace == old(dev.trace) + ws && dev.disk == ApplyAll(old(dev.disk), ws)
      ensures r == Logged ==> dev.pinned == Unpinned(old(dev.pinned), old(Blocks()), old(n))
      ensures Empty(layout, dev.disk)
    {
      hide Word, PutWord, PutWords, PutHead, CommitWrites, RecoverWrites, Distinct, Full;
      if n > 0 {
        ghost var l, d0, blocks, data := layout, dev.disk, Blocks(), Data();
        ghost var ws := CommitWrites(l, d0, blocks, data);
        r := WriteLog();
        if r == Panic {
          return;
        }
        CommitCompletes(l, d0, blocks, data);
        AppendNext(old(dev.trace), ws, n);
        ghost var c := dev.disk;
        r := WriteHead();
        CommitIsLogThenRecover(l, d0, blocks, data, c, dev.disk);
        assert dev.trace == old(dev.trace) + ws[..n + 1];
        AppendAssoc(old(dev.trace), ws[..n + 1], RecoverWrites(l, dev.disk));
        InstallAndErase();
      } else {
        assert Blocks() == [];
      }
      r := Logged;
    }

    /** Recovery issues exactly RecoverWrites, in that order. */
    method RecoverFromLog()
      requires Valid() && HeadOk(layout, dev.disk) && dev.pinned == map[]
      modifies `n, block, dev
      ensures Valid() && n == 0
      ensures dev.trace == old(dev.trace) + RecoverWrites(layout, old(dev.disk))
      ensures dev.disk == Recover(layout, old(dev.disk))
      ensures dev.pinned == map[]
    {
      var r := ReadHead();
      InstallAndErase();
    }
  }
}
