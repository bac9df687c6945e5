/** The redo log as pure functions of the disk: which block writes a commit and
    a recovery issue, in order, and what a crash between any two of them leaves. */
module RedoLog {
  import opened Blocks

  const MAXOPBLOCKS := 10
  const LOGSIZE := 3 * MAXOPBLOCKS
  const NBUF := 3 * MAXOPBLOCKS      // buffers in the cache

  type Disk = seq<Block>

  /** One atomic single-block write. */
  datatype Write = Write(blockno: nat, data: Block)

  /** Where the log lives: a header at `start`, log blocks up to `start + size`. */
  datatype Layout = Layout(start: nat, size: nat) {
    predicate InLog(b: nat) { start <= b < start + size }
    predicate Fits(d: Disk) { 1 <= size && start + size <= |d| <= 0x1_0000_0000 }
    predicate Home(d: Disk, b: nat) { b < |d| && !InLog(b) }
  }

  /** The two disks agree outside the log area. */
  predicate SameHome(l: Layout, d: Disk, e: Disk) {
    |d| == |e| && forall b :: 0 <= b < |d| && !l.InLog(b) ==> d[b] == e[b]
  }

  // ---- sequences of writes ----

  function Put(d: Disk, w: Write): (r: Disk)
    ensures |r| == |d|
  {
    if w.blockno < |d| then d[w.blockno := w.data] else d
  }

  /** The disk after the first `k` of the writes. */
  function Apply(d: Disk, ws: seq<Write>, k: nat): (r: Disk)
    requires k <= |ws|
    ensures |r| == |d|
  {
    if k == 0 then d else Put(Apply(d, ws, k - 1), ws[k - 1])
  }

  function ApplyAll(d: Disk, ws: seq<Write>): (r: Disk) {
    Apply(d, ws, |ws|)
  }

  lemma {:induction false} ApplyUntouched(d: Disk, ws: seq<Write>, k: nat, b: nat)
    requires k <= |ws| && b < |d|
    requires forall i :: 0 <= i < k ==> ws[i].blockno != b
    ensures Apply(d, ws, k)[b] == d[b]
  {
    if k > 0 { ApplyUntouched(d, ws, k - 1, b); }
  }

  /** The last write to a block wins. */
  lemma {:induction false} ApplyLast(d: Disk, ws: seq<Write>, k: nat, i: nat)
    requires i < k <= |ws| && ws[i].blockno < |d|
    requires forall j :: i < j < k ==> ws[j].blockno != ws[i].blockno
    ensures Apply(d, ws, k)[ws[i].blockno] == ws[i].data
  {
    if i < k - 1 { ApplyLast(d, ws, k - 1, i); }
  }

  predicate Touches(ws: seq<Write>, b: nat) {
    exists i :: 0 <= i < |ws| && ws[i].blockno == b
  }

  lemma {:induction false} ApplyAgreeAt(d: Disk, e: Disk, ws: seq<Write>, k: nat, b: nat, i: nat)
    requires |d| == |e| && b < |d| && i < k <= |ws| && ws[i].blockno == b
    ensures Apply(d, ws, k)[b] == Apply(e, ws, k)[b]
  {
    if ws[k - 1].blockno != b { ApplyAgreeAt(d, e, ws, k - 1, b, i); }
  }

  /** Writes overwrite: disks that differ only where `ws` writes end up the same. */
  lemma ApplyAgree(d: Disk, e: Disk, ws: seq<Write>)
    requires |d| == |e|
    requires forall b :: 0 <= b < |d| && !Touches(ws, b) ==> d[b] == e[b]
    ensures ApplyAll(d, ws) == ApplyAll(e, ws)
  {
    forall b | 0 <= b < |d| ensures ApplyAll(d, ws)[b] == ApplyAll(e, ws)[b] {
      if Touches(ws, b) {
        var i :| 0 <= i < |ws| && ws[i].blockno == b;
        ApplyAgreeAt(d, e, ws, |ws|, b, i);
      } else {
        ApplyUntouched(d, ws, |ws|, b);
        ApplyUntouched(e, ws, |ws|, b);
      }
    }
  }

  /** Repeating a run of writes after any prefix of itself gives the same disk. */
  lemma ReplayAfterPrefix(d: Disk, ws: seq<Write>, k: nat)
    requires k <= |ws|
    ensures ApplyAll(Apply(d, ws, k), ws) == ApplyAll(d, ws)
  {
    var e := Apply(d, ws, k);
    forall b | 0 <= b < |d| && !Touches(ws, b) ensures e[b] == d[b] {
      ApplyUntouched(d, ws, k, b);
    }
    ApplyAgree(e, d, ws);
  }

  lemma {:induction false} ApplySame(d: Disk, ws: seq<Write>, vs: seq<Write>, k: nat)
    requires k <= |ws| && k <= |vs|
    requires forall i :: 0 <= i < k ==> ws[i] == vs[i]
    ensures Apply(d, ws, k) == Apply(d, vs, k)
  {
    if k > 0 { ApplySame(d, ws, vs, k - 1); }
  }

  /** If `vs` is the tail of `ws` from `m` on, then applying `ws` is applying its first `m`
      writes and then `vs`. */
  lemma {:induction false} ApplyTail(d: Disk, ws: seq<Write>, m: nat, vs: seq<Write>, k: nat)
    requires m + |vs| == |ws| && k <= |vs|
    requires forall i :: 0 <= i < |vs| ==> vs[i] == ws[m + i]
    ensures Apply(d, ws, m + k) == Apply(Apply(d, ws, m), vs, k)
  {
    if k > 0 { ApplyTail(d, ws, m, vs, k - 1); }
  }

  lemma AppendNext(t: seq<Write>, ws: seq<Write>, k: nat)
    requires k < |ws|
    ensures t + ws[..k + 1] == t + ws[..k] + [ws[k]]
  {
  }

  lemma AppendAssoc(t: seq<Write>, xs: seq<Write>, ys: seq<Write>)
    ensures t + xs + ys == t + (xs + ys)
  {
  }

  lemma AppendTail(t: seq<Write>, ws: seq<Write>, m: nat, vs: seq<Write>)
    requires m + |vs| == |ws| && forall i :: 0 <= i < |vs| ==> vs[i] == ws[m + i]
    ensures ws[..m] + vs == ws
    ensures t + ws[..m] + vs == t + ws
  {
    assert ws[..m] + vs == ws;
  }

  // ---- the header block ----

  /** The header's block list. */
  function Head(b: Block): (blocks: seq<Word32>)
    requires Word(b, 0) <= LOGSIZE
  {
    seq(Word(b, 0), i requires 0 <= i < Word(b, 0) => Word(b, i + 1))
  }

  /** Header block `b` overwritten with a new count and list; words past the list stay. */
  function PutHead(b: Block, blocks: seq<Word32>): (r: Block)
    requires |blocks| <= LOGSIZE
  {
    PutWords(PutWord(b, 0, |blocks|), 1, blocks)
  }

  /** Reading back a written header gives the list written, whatever the block held. */
  lemma HeadOfPutHead(b: Block, blocks: seq<Word32>)
    requires |blocks| <= LOGSIZE
    ensures Word(PutHead(b, blocks), 0) == |blocks|
    ensures Head(PutHead(b, blocks)) == blocks
  {
    var c := PutWord(b, 0, |blocks|);
    WordOfPutWord(b, 0, |blocks|, 0);
    WordOfPutWords(c, 1, blocks, 0);
    forall i | 0 <= i < |blocks| ensures Head(PutHead(b, blocks))[i] == blocks[i] {
      WordOfPutWords(c, 1, blocks, i + 1);
    }
  }

  lemma EraseTwice(b: Block)
    ensures PutHead(PutHead(b, []), []) == PutHead(b, [])
  {
    var h := PutWord(b, 0, 0);
    assert PutWord(h, 0, 0) == h;
  }

  // ---- recovery ----

  /** How many blocks the on-disk header names. */
  function Count(l: Layout, d: Disk): (n: nat)
    requires l.Fits(d)
  {
    Word(d[l.start], 0)
  }

  /** Home of the `i`-th logged block, according to the on-disk header. */
  function HomeOf(l: Layout, d: Disk, i: nat): (b: nat)
    requires l.Fits(d) && i < LOGSIZE
  {
    Word(d[l.start], i + 1)
  }

  /** The header names home blocks only and every log block it implies is in the log area. */
  predicate HeadOk(l: Layout, d: Disk) {
    && l.Fits(d)
    && Count(l, d) <= LOGSIZE
    && Count(l, d) < l.size
    && forall i :: 0 <= i < Count(l, d) ==> l.Home(d, HomeOf(l, d, i))
  }

  predicate Empty(l: Layout, d: Disk) {
    HeadOk(l, d) && Count(l, d) == 0
  }

  function RecoverWrite(l: Layout, d: Disk, k: nat): (w: Write)
    requires HeadOk(l, d) && k <= Count(l, d)
  {
    if k < Count(l, d) then Write(HomeOf(l, d, k), d[l.start + 1 + k])
    else Write(l.start, PutHead(d[l.start], []))
  }

  /** The writes of recover_from_log, in order: every logged block to its home, then an empty header. */
  function RecoverWrites(l: Layout, d: Disk): (ws: seq<Write>)
    requires HeadOk(l, d)
    ensures |ws| == Count(l, d) + 1
  {
    seq(Count(l, d) + 1, k requires 0 <= k <= Count(l, d) => RecoverWrite(l, d, k))
  }

  lemma RecoverWriteAt(l: Layout, d: Disk, k: nat)
    requires HeadOk(l, d) && k <= Count(l, d)
    ensures RecoverWrites(l, d)[k] == RecoverWrite(l, d, k)
  {
  }

  function Recover(l: Layout, d: Disk): (r: Disk)
    requires HeadOk(l, d)
  {
    ApplyAll(d, RecoverWrites(l, d))
  }

  /** Installing never touches the log area. */
  lemma InstallKeepsLog(l: Layout, d: Disk, k: nat, b: nat)
    requires HeadOk(l, d) && k <= Count(l, d) && l.InLog(b)
    ensures Apply(d, RecoverWrites(l, d), k)[b] == d[b]
  {
    var ws := RecoverWrites(l, d);
    forall i | 0 <= i < k ensures ws[i].blockno != b {
      assert l.Home(d, HomeOf(l, d, i));
    }
    ApplyUntouched(d, ws, k, b);
  }

  /** What recovery writes is decided by the log area alone. */
  lemma RecoverWritesSame(l: Layout, d: Disk, e: Disk)
    requires HeadOk(l, d) && |d| == |e|
    requires forall b: nat :: l.InLog(b) ==> e[b] == d[b]
    ensures HeadOk(l, e) && RecoverWrites(l, e) == RecoverWrites(l, d)
  {
    assert l.InLog(l.start);
    forall i | 0 <= i < Count(l, d) ensures l.Home(e, HomeOf(l, e, i)) {
      assert l.Home(d, HomeOf(l, d, i));
    }
    forall k | 0 <= k <= Count(l, d) ensures RecoverWrites(l, e)[k] == RecoverWrites(l, d)[k] {
      if k < Count(l, d) { assert l.InLog(l.start + 1 + k); }
    }
  }

  /** An interrupted installation restarts with the same writes. */
  lemma InstallPrefix(l: Layout, d: Disk, k: nat)
    requires HeadOk(l, d) && k <= Count(l, d)
    ensures HeadOk(l, Apply(d, RecoverWrites(l, d), k))
    ensures RecoverWrites(l, Apply(d, RecoverWrites(l, d), k)) == RecoverWrites(l, d)
  {
    var e := Apply(d, RecoverWrites(l, d), k);
    forall b: nat | l.InLog(b) ensures e[b] == d[b] {
      InstallKeepsLog(l, d, k, b);
    }
    RecoverWritesSame(l, d, e);
  }

  /** A finished recovery leaves an empty log. */
  lemma RecoverEmpties(l: Layout, d: Disk)
    requires HeadOk(l, d)
    ensures Recover(l, d)[l.start] == PutHead(d[l.start], [])
    ensures Empty(l, Recover(l, d))
  {
    hide Word, PutWord, PutWords;
    assert RecoverWrites(l, d)[Count(l, d)] == RecoverWrite(l, d, Count(l, d));
    HeadOfPutHead(d[l.start], []);
  }

  /** On an empty log recovery only rewrites the header. */
  lemma RecoverEmpty(l: Layout, d: Disk)
    requires Empty(l, d)
    ensures Recover(l, d) == d[l.start := PutHead(d[l.start], [])]
    ensures SameHome(l, Recover(l, d), d)
  {
    var ws := RecoverWrites(l, d);
    assert ws[0] == Write(l.start, PutHead(d[l.start], []));
    assert Apply(d, ws, 0) == d;
  }

  lemma RecoverTwice(l: Layout, d: Disk)
    requires HeadOk(l, d)
    ensures Empty(l, Recover(l, d)) && Recover(l, Recover(l, d)) == Recover(l, d)
  {
    RecoverEmpties(l, d);
    EraseTwice(d[l.start]);
    RecoverEmpty(l, Recover(l, d));
  }

  /** Idempotence, for a recovery stopped anywhere: however many of its writes reached the
      disk, running recovery again ends in the very same disk. */
  lemma RecoverAfterPrefix(l: Layout, d: Disk, k: nat)
    requires HeadOk(l, d) && k <= |RecoverWrites(l, d)|
    ensures HeadOk(l, Apply(d, RecoverWrites(l, d), k))
    ensures Recover(l, Apply(d, RecoverWrites(l, d), k)) == Recover(l, d)
  {
    hide Word, PutWord, PutWords;
    if k <= Count(l, d) {
      InstallPrefix(l, d, k);
      ReplayAfterPrefix(d, RecoverWrites(l, d), k);
    } else {
      RecoverTwice(l, d);
    }
  }

  /** A run of writes whose tail is what recovery would do recovers alike anywhere in that tail. */
  lemma RecoverInTail(l: Layout, d: Disk, ws: seq<Write>, m: nat, k: nat)
    requires m <= k <= |ws|
    requires HeadOk(l, Apply(d, ws, m))
    requires m + |RecoverWrites(l, Apply(d, ws, m))| == |ws|
    requires forall i :: 0 <= i < |ws| - m ==> RecoverWrites(l, Apply(d, ws, m))[i] == ws[m + i]
    ensures HeadOk(l, Apply(d, ws, k))
    ensures Recover(l, Apply(d, ws, k)) == Recover(l, Apply(d, ws, m))
  {
    hide HeadOk, RecoverWrites;
    var e := Apply(d, ws, m);
    ApplyTail(d, ws, m, RecoverWrites(l, e), k - m);
    RecoverAfterPrefix(l, e, k - m);
  }

  /** Crash again and again: each element of `ks` is a recovery stopped after that many writes
      (or finished, if it has fewer). */
  function Interrupted(l: Layout, d: Disk, ks: seq<nat>): (r: Disk)
    requires HeadOk(l, d)
    ensures HeadOk(l, r) && Recover(l, r) == Recover(l, d)
    decreases |ks|
  {
    if ks == [] then d
    else
      var k := if ks[0] <= |RecoverWrites(l, d)| then ks[0] else |RecoverWrites(l, d)|;
      RecoverAfterPrefix(l, d, k);
      Interrupted(l, Apply(d, RecoverWrites(l, d), k), ks[1..])
  }

  // ---- commit ----

  predicate Distinct(blocks: seq<nat>) {
    forall i, j :: 0 <= i < j < |blocks| ==> blocks[i] != blocks[j]
  }

  function Members(xs: seq<nat>): (r: set<nat>) {
    set x | x in xs
  }

  lemma {:induction false} DistinctCard(xs: seq<nat>)
    requires Distinct(xs)
    ensures |Members(xs)| == |xs|
  {
    if xs != [] {
      var n := |xs| - 1;
      DistinctCard(xs[..n]);
      assert xs[n] !in Members(xs[..n]);
      assert Members(xs) == Members(xs[..n]) + {xs[n]} by {
        assert xs == xs[..n] + [xs[n]];
      }
    }
  }

  /** What the in-memory header can describe: at most LOGSIZE blocks and their contents. */
  predicate Described(l: Layout, d: Disk, blocks: seq<nat>, data: seq<Block>) {
    && l.Fits(d)
    && |blocks| == |data| <= LOGSIZE
    && forall i :: 0 <= i < |blocks| ==> blocks[i] < |d|
  }

  /** A transaction: distinct home blocks that fit the log, with their new contents. */
  predicate TransOk(l: Layout, d: Disk, blocks: seq<nat>, data: seq<Block>) {
    && Described(l, d, blocks, data)
    && |blocks| < l.size
    && (forall i :: 0 <= i < |blocks| ==> l.Home(d, blocks[i]))
    && Distinct(blocks)
  }

  function HomeWrites(blocks: seq<nat>, data: seq<Block>): (ws: seq<Write>)
    requires |blocks| == |data|
  {
    seq(|blocks|, i requires 0 <= i < |blocks| => Write(blocks[i], data[i]))
  }

  /** The disk the transaction asks for. */
  function Updated(d: Disk, blocks: seq<nat>, data: seq<Block>): (r: Disk)
    requires |blocks| == |data|
    ensures |r| == |d|
  {
    ApplyAll(d, HomeWrites(blocks, data))
  }

  lemma UpdatedAt(l: Layout, d: Disk, blocks: seq<nat>, data: seq<Block>, b: nat)
    requires TransOk(l, d, blocks, data) && b < |d|
    ensures b !in blocks ==> Updated(d, blocks, data)[b] == d[b]
    ensures forall i :: 0 <= i < |blocks| && blocks[i] == b ==> Updated(d, blocks, data)[b] == data[i]
  {
    var hw := HomeWrites(blocks, data);
    if b !in blocks {
      ApplyUntouched(d, hw, |hw|, b);
    } else {
      var i :| 0 <= i < |blocks| && blocks[i] == b;
      ApplyLast(d, hw, |hw|, i);
    }
  }

  function CommitWrite(l: Layout, d: Disk, blocks: seq<nat>, data: seq<Block>, k: nat): (w: Write)
    requires Described(l, d, blocks, data) && k < 2 * |blocks| + 2
  {
    var n := |blocks|;
    if k < n then Write(l.start + 1 + k, data[k])
    else if k == n then Write(l.start, PutHead(d[l.start], blocks))
    else if k <= 2 * n then Write(blocks[k - n - 1], data[k - n - 1])
    else Write(l.start, PutHead(PutHead(d[l.start], blocks), []))
  }

  /** The writes of commit(), in order: log blocks, header, homes, empty header. */
  function CommitWrites(l: Layout, d: Disk, blocks: seq<nat>, data: seq<Block>): (ws: seq<Write>)
    requires Described(l, d, blocks, data)
    ensures |ws| == 2 * |blocks| + 2
  {
    seq(2 * |blocks| + 2, k requires 0 <= k < 2 * |blocks| + 2 => CommitWrite(l, d, blocks, data, k))
  }

  /** Up to the header write, a commit has written nothing but log blocks. */
  lemma CommitLogOnly(l: Layout, d: Disk, blocks: seq<nat>, data: seq<Block>, k: nat)
    requires TransOk(l, d, blocks, data) && k <= |blocks|
    ensures k < |blocks| ==> CommitWrites(l, d, blocks, data)[k] == Write(l.start + 1 + k, data[k])
    ensures var e := Apply(d, CommitWrites(l, d, blocks, data), k);
            && SameHome(l, e, d) && e[l.start] == d[l.start]
            && forall i :: 0 <= i < k ==> e[l.start + 1 + i] == data[i]
  {
    var ws := CommitWrites(l, d, blocks, data);
    forall b | 0 <= b < |d| && (b == l.start || !l.InLog(b)) ensures Apply(d, ws, k)[b] == d[b] {
      ApplyUntouched(d, ws, k, b);
    }
    forall i | 0 <= i < k ensures Apply(d, ws, k)[l.start + 1 + i] == data[i] {
      assert ws[i].blockno == l.start + 1 + i;
      ApplyLast(d, ws, k, i);
    }
  }

  /** Before the header is written the log still reads as empty. */
  lemma BeforeCommitPoint(l: Layout, d: Disk, blocks: seq<nat>, data: seq<Block>, k: nat)
    requires Empty(l, d) && TransOk(l, d, blocks, data) && k <= |blocks|
    ensures Empty(l, Apply(d, CommitWrites(l, d, blocks, data), k))
    ensures SameHome(l, Apply(d, CommitWrites(l, d, blocks, data), k), d)
  {
    CommitLogOnly(l, d, blocks, data, k);
  }

  /** A disk whose log holds the transaction will recover by installing it. */
  lemma LoggedRecovers(l: Layout, d: Disk, blocks: seq<nat>, data: seq<Block>, e: Disk)
    requires TransOk(l, d, blocks, data) && |e| == |d|
    requires e[l.start] == PutHead(d[l.start], blocks)
    requires forall i :: 0 <= i < |blocks| ==> e[l.start + 1 + i] == data[i]
    ensures HeadOk(l, e) && Count(l, e) == |blocks|
    ensures forall i :: 0 <= i < |blocks| ==> HomeOf(l, e, i) == blocks[i]
    ensures forall k :: 0 <= k < |blocks| ==> RecoverWrites(l, e)[k] == Write(blocks[k], data[k])
    ensures forall k :: 0 <= k <= |blocks| ==>
              RecoverWrites(l, e)[k] == CommitWrites(l, d, blocks, data)[|blocks| + 1 + k]
  {
    hide Word, PutWord, PutWords;
    HeadOfPutHead(d[l.start], blocks);
    forall i | 0 <= i < |blocks| ensures HomeOf(l, e, i) == blocks[i] {
      assert Head(e[l.start])[i] == blocks[i];
    }
  }

  /** The commit point: every log block and the header written, no home block yet. What the
      commit still has to write is then exactly what a recovery would write. */
  lemma AtCommitPoint(l: Layout, d: Disk, blocks: seq<nat>, data: seq<Block>)
    requires TransOk(l, d, blocks, data)
    ensures var ws := CommitWrites(l, d, blocks, data);
            var e := Apply(d, ws, |blocks| + 1);
            && SameHome(l, e, d)
            && HeadOk(l, e) && |RecoverWrites(l, e)| == |blocks| + 1
            && (forall k :: 0 <= k < |blocks| ==> RecoverWrites(l, e)[k] == Write(blocks[k], data[k]))
            && forall k :: 0 <= k <= |blocks| ==> RecoverWrites(l, e)[k] == ws[|blocks| + 1 + k]
  {
    var ws := CommitWrites(l, d, blocks, data);
    var n := |blocks|;
    CommitLogOnly(l, d, blocks, data, n);
    assert ws[n] == Write(l.start, PutHead(d[l.start], blocks));
    LoggedRecovers(l, d, blocks, data, Apply(d, ws, n + 1));
  }

  /** A recovery that installs the transaction leaves the homes as the transaction asked. */
  lemma RecoverInstalls(l: Layout, d: Disk, blocks: seq<nat>, data: seq<Block>, e: Disk)
    requires TransOk(l, d, blocks, data) && HeadOk(l, e) && SameHome(l, e, d)
    requires |RecoverWrites(l, e)| == |blocks| + 1
    requires forall k :: 0 <= k < |blocks| ==> RecoverWrites(l, e)[k] == Write(blocks[k], data[k])
    ensures SameHome(l, Recover(l, e), Updated(d, blocks, data))
  {
    hide Word, PutWord, PutWords;
    var ws, n := RecoverWrites(l, e), |blocks|;
    var hw := HomeWrites(blocks, data);
    ApplySame(e, ws, hw, n);
    forall b | 0 <= b < |d| && !l.InLog(b) ensures Recover(l, e)[b] == Updated(d, blocks, data)[b] {
      assert Recover(l, e)[b] == Apply(e, hw, n)[b];
      if b in blocks {
        var i :| 0 <= i < n && blocks[i] == b;
        ApplyAgreeAt(e, d, hw, n, b, i);
      } else {
        ApplyUntouched(e, hw, n, b);
        ApplyUntouched(d, hw, n, b);
      }
    }
  }

  /** From the header write on, every crash recovers to the same disk. */
  lemma AfterCommitPoint(l: Layout, d: Disk, blocks: seq<nat>, data: seq<Block>, k: nat)
    requires TransOk(l, d, blocks, data) && |blocks| < k <= 2 * |blocks| + 2
    ensures HeadOk(l, Apply(d, CommitWrites(l, d, blocks, data), k))
    ensures SameHome(l, Recover(l, Apply(d, CommitWrites(l, d, blocks, data), k)), Updated(d, blocks, data))
  {
    hide Word, PutWord, PutWords;
    var ws := CommitWrites(l, d, blocks, data);
    var m := |blocks| + 1;
    var e := Apply(d, ws, m);
    AtCommitPoint(l, d, blocks, data);
    RecoverInTail(l, d, ws, m, k);
    RecoverInstalls(l, d, blocks, data, e);
  }

  /** Crash atomicity. The machine stops after `k` of the commit's writes; recovery is then
      stopped and restarted any number of times. Once a recovery finishes, the home blocks are
      all as before the transaction when the header had not been written, and all as after it
      when it had. */
  lemma CrashAtomicity(l: Layout, d: Disk, blocks: seq<nat>, data: seq<Block>, k: nat, ks: seq<nat>)
    requires Empty(l, d) && TransOk(l, d, blocks, data)
    requires k <= |CommitWrites(l, d, blocks, data)|
    ensures var crashed := Apply(d, CommitWrites(l, d, blocks, data), k);
            && HeadOk(l, crashed)
            && SameHome(l, Recover(l, Interrupted(l, crashed, ks)),
                        if k <= |blocks| then d else Updated(d, blocks, data))
  {
    var crashed := Apply(d, CommitWrites(l, d, blocks, data), k);
    if k <= |blocks| {
      BeforeCommitPoint(l, d, blocks, data, k);
      RecoverEmpty(l, crashed);
    } else {
      AfterCommitPoint(l, d, blocks, data, k);
    }
  }

  /** An uninterrupted commit leaves an empty log and the transaction at home. */
  lemma CommitCompletes(l: Layout, d: Disk, blocks: seq<nat>, data: seq<Block>)
    requires TransOk(l, d, blocks, data)
    ensures Empty(l, ApplyAll(d, CommitWrites(l, d, blocks, data)))
    ensures SameHome(l, ApplyAll(d, CommitWrites(l, d, blocks, data)), Updated(d, blocks, data))
  {
    hide Word, PutWord, PutWords;
    var ws := CommitWrites(l, d, blocks, data);
    var m := |blocks| + 1;
    var e := Apply(d, ws, m);
    AtCommitPoint(l, d, blocks, data);
    ApplyTail(d, ws, m, RecoverWrites(l, e), m);
    RecoverEmpties(l, e);
    RecoverInstalls(l, d, blocks, data, e);
  }

  /** After its header write a commit does what a recovery does: the header then on disk is the
      transaction's, and the remaining writes are the recovery's. */
  lemma CommitIsLogThenRecover(l: Layout, d: Disk, blocks: seq<nat>, data: seq<Block>, c: Disk, e: Disk)
    requires TransOk(l, d, blocks, data)
    requires c == Apply(d, CommitWrites(l, d, blocks, data), |blocks|)
    requires e == Put(c, Write(l.start, PutHead(c[l.start], blocks)))
    ensures CommitWrites(l, d, blocks, data)[|blocks|] == Write(l.start, PutHead(c[l.start], blocks))
    ensures HeadOk(l, e) && Count(l, e) == |blocks|
    ensures forall i :: 0 <= i < |blocks| ==> HomeOf(l, e, i) == blocks[i]
    ensures CommitWrites(l, d, blocks, data)[..|blocks| + 1] + RecoverWrites(l, e) == CommitWrites(l, d, blocks, data)
    ensures Recover(l, e) == ApplyAll(d, CommitWrites(l, d, blocks, data))
  {
    hide Word, PutWord, PutWords;
    var ws := CommitWrites(l, d, blocks, data);
    var m := |blocks| + 1;
    CommitLogOnly(l, d, blocks, data, |blocks|);
    assert ws[|blocks|] == Write(l.start, PutHead(d[l.start], blocks));
    LoggedRecovers(l, d, blocks, data, e);
    ApplyTail(d, ws, m, RecoverWrites(l, e), m);
    AppendTail([], ws, m, RecoverWrites(l, e));
  }
}
