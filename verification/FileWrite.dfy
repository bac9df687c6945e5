/** file.c: filewrite cuts a write into chunks, one log transaction each. */
module FileWrite {
  import opened Blocks
  import opened FsSpec
  import opened FsCount
  import opened FileSystem
  import RedoLog
  import Sets

  const MAXOPBLOCKS := RedoLog.MAXOPBLOCKS

  /** The most one chunk writes: three blocks' worth. */
  const MAXCHUNK := ((MAXOPBLOCKS - 1 - 1 - 2) / 2) * 512

  /** Every chunk fits the log reservation of one operation, at any offset. */
  lemma ChunkFitsReservation(off: nat, n: nat)
    requires n <= MAXCHUNK
    ensures WriteCost(off, n) <= MAXOPBLOCKS
  {
    if n > 0 {
      var a := off % BSIZE;
      assert (off + n - 1) / BSIZE == off / BSIZE + (a + n - 1) / BSIZE by {
        assert off + n - 1 == BSIZE * (off / BSIZE) + (a + n - 1);
      }
      assert (a + n - 1) / BSIZE <= if a == 0 then 2 else 3;
    }
  }

  /** Writing `x` and then `y` right after it is writing both. */
  lemma OverwriteTwice(c: seq<Byte>, off: nat, x: seq<Byte>, y: seq<Byte>)
    requires off <= |c|
    ensures off + |x| <= |Overwrite(c, off, x)|
    ensures Overwrite(Overwrite(c, off, x), off + |x|, y) == Overwrite(c, off, x + y)
  {
    var d := Overwrite(c, off, x);
    assert |Overwrite(d, off + |x|, y)| == |Overwrite(c, off, x + y)|;
    forall j | 0 <= j < |Overwrite(c, off, x + y)|
      ensures Overwrite(d, off + |x|, y)[j] == Overwrite(c, off, x + y)[j]
    {
    }
  }

  /** For one chunk of a file the refusal is about its start or its end, never wrap-around. */
  lemma RefusedMeans(size: Word32, off: Word32, n: nat)
    requires size <= MAXFILE * BSIZE && n <= MAXCHUNK
    ensures WriteRefused(size, off, n) <==> off > size || off + n > MAXFILE * BSIZE
  {
  }

  function ChunkSize(left: nat): (m: nat) {
    if left > MAXCHUNK then MAXCHUNK else left
  }

  /** Transactions that `n` bytes take. */
  function Chunks(n: nat): (k: nat) {
    (n + MAXCHUNK - 1) / MAXCHUNK
  }

  lemma NoChunks()
    ensures Chunks(0) == 0
  {
  }

  lemma NextChunks(i: nat, m: nat)
    requires i % MAXCHUNK == 0 && 0 < m <= MAXCHUNK
    ensures Chunks(i + m) == Chunks(i) + 1
  {
    assert i == 1536 * (i / 1536);
    assert (i + m + 1535) / 1536 == i / 1536 + (m + 1535) / 1536;
  }

  /** How many bytes of an `n`-byte write at `off` the chunks that writei accepts cover: all, or
      the whole chunks that fit below the largest file size. */
  function Accepted(size: nat, off: nat, n: nat): (k: nat)
    requires off <= size <= MAXFILE * BSIZE
    ensures k <= n && off + k <= MAXFILE * BSIZE
  {
    if off + n <= MAXFILE * BSIZE then n else (MAXFILE * BSIZE - off) / MAXCHUNK * MAXCHUNK
  }

  lemma WholeChunks(room: nat, q: nat)
    requires q * 1536 <= room
    ensures room < (q + 1) * 1536 ==> room / 1536 * 1536 == q * 1536
    ensures (q + 1) * 1536 <= room ==> (q + 1) * 1536 <= room / 1536 * 1536
  {
    var p := room / 1536;
    assert p * 1536 <= room < (p + 1) * 1536;
  }

  /** The chunk that starts after `i` bytes is the first one refused exactly when `i` is all that
      is accepted. */
  lemma ChunkAccepted(size: nat, off: nat, n: nat, i: nat)
    requires off <= size <= MAXFILE * BSIZE && i < n && i % MAXCHUNK == 0 && off + i <= MAXFILE * BSIZE
    ensures var m := ChunkSize(n - i);
            && (if off + i + m > MAXFILE * BSIZE then i == Accepted(size, off, n) else i + m <= Accepted(size, off, n))
            && (i + m < n ==> (i + m) % MAXCHUNK == 0)
  {
    var room, q := MAXFILE * BSIZE - off, i / 1536;
    WholeChunks(room, q);
  }

  /** From `d0` to `d`, the first `i` bytes of `src` were written at `off0`, using up exactly the
      free blocks those bytes need. */
  ghost predicate Progress(sb: Super, d0: Dinode, b0: seq<Block>, off0: nat, src: seq<Byte>, i: nat, d: Dinode, b: seq<Block>) {
    && i <= |src| && sb.Ok() && |b0| == |b| == sb.size && d0.size <= MAXFILE * BSIZE && d.size <= MAXFILE * BSIZE
    && (i == 0 ==> b == b0 && d == d0)
    && (i > 0 ==> off0 <= d0.size && Content(d, b) == Overwrite(Content(d0, b0), off0, src[..i]))
    && (off0 <= d0.size ==>
          && i <= Accepted(d0.size, off0, |src|) && off0 + i <= d.size
          && (i < |src| ==> i % MAXCHUNK == 0)
          && ExtendedBytes(d0, b0, d, b, off0, i)
          && FreeBlocks(sb, b) + NeedBytes(d0, b0, off0, i) == FreeBlocks(sb, b0))
  }

  lemma ProgressParts(sb: Super, d0: Dinode, b0: seq<Block>, off0: nat, src: seq<Byte>, i: nat, d: Dinode, b: seq<Block>)
    requires Progress(sb, d0, b0, off0, src, i, d, b)
    ensures i <= |src| && sb.Ok() && |b0| == |b| == sb.size && d0.size <= MAXFILE * BSIZE && d.size <= MAXFILE * BSIZE
    ensures off0 <= d0.size ==> off0 + i <= d.size && (i < |src| ==> i % MAXCHUNK == 0)
    ensures off0 > d0.size ==> i == 0 && d == d0
  {
    hide Content, Overwrite, ExtendedBytes, NeedBytes, FreeBlocks, Accepted;
  }

  /** What the next chunk needs from what is left is what the write needs from the start. */
  lemma ProgressNeed(sb: Super, d0: Dinode, b0: seq<Block>, off0: nat, src: seq<Byte>, i: nat, d: Dinode, b: seq<Block>, n1: nat)
    requires Progress(sb, d0, b0, off0, src, i, d, b) && off0 <= d0.size
    requires 0 < n1 && off0 + i + n1 <= MAXFILE * BSIZE && i + n1 <= Accepted(d0.size, off0, |src|)
    ensures FreeBlocks(sb, b) - NeedBytes(d, b, off0 + i, n1) == FreeBlocks(sb, b0) - NeedBytes(d0, b0, off0, i + n1)
    ensures NeedBytes(d0, b0, off0, i + n1) <= NeedBytes(d0, b0, off0, Accepted(d0.size, off0, |src|))
  {
    hide Content, Overwrite, ExtendedBytes, NeedBytes, FreeBlocks, Accepted;
    NeedBytesSplit(d0, b0, d, b, off0, i, n1);
    NeedBytesGrow(d0, b0, off0, i + n1, Accepted(d0.size, off0, |src|));
  }

  lemma ProgressStep(sb: Super, d0: Dinode, b0: seq<Block>, off0: nat, src: seq<Byte>, i: nat, d: Dinode, b: seq<Block>,
                     n1: nat, e: Dinode, b': seq<Block>)
    requires Progress(sb, d0, b0, off0, src, i, d, b) && off0 <= d0.size && i < |src| && n1 == ChunkSize(|src| - i)
    requires off0 + i + n1 <= MAXFILE * BSIZE
    requires |b'| == sb.size && off0 + i + n1 <= e.size <= MAXFILE * BSIZE
    requires Content(e, b') == Overwrite(Content(d, b), off0 + i, src[i..i + n1])
    requires ExtendedBytes(d, b, e, b', off0 + i, n1)
    requires FreeBlocks(sb, b') + NeedBytes(d, b, off0 + i, n1) == FreeBlocks(sb, b)
    ensures Progress(sb, d0, b0, off0, src, i + n1, e, b')
  {
    hide Content, Overwrite, ExtendedBytes, NeedBytes, FreeBlocks, Accepted;
    ChunkAccepted(d0.size, off0, |src|, i);
    ProgressNeed(sb, d0, b0, off0, src, i, d, b, n1);
    var x, y := src[..i], src[i..i + n1];
    assert x + y == src[..i + n1];
    if i > 0 { OverwriteTwice(Content(d0, b0), off0, x, y); }
    ExtendedBytesTrans(d0, b0, d, b, e, b', off0, i, n1);
  }

  lemma NothingYet(d: Dinode, blk: seq<Block>, off: nat)
    requires off <= MAXFILE * BSIZE
    ensures ExtendedBytes(d, blk, d, blk, off, 0) && NeedBytes(d, blk, off, 0) == 0
  {
    ExtendedSelf(d, blk, off / BSIZE);
  }

  lemma SizeInSync(fs: FileSys, ip: Inode)
    requires fs.Valid() && fs.InSync(ip)
    ensures ip.size <= MAXFILE * BSIZE && InodeOk(ip.D(), fs.blk)
  {
    hide Slot, OwnOk, BitsOk, DinodeIn;
    assert InodeOk(Table(fs.sb, fs.blk)[ip.inum], fs.blk);
  }

  /** The write is accepted, but fewer blocks are free than it has to allocate. */
  predicate OutOfBlocks(sb: Super, d: Dinode, blk: seq<Block>, off: Word32, n: Word32) {
    && sb.Ok() && |blk| == sb.size && d.size <= MAXFILE * BSIZE
    && !WriteRefused(d.size, off, n)
    && FreeBlocks(sb, blk) < NeedBytes(d, blk, off, n)
  }

  /** The new file is the old one with `y` at `off`. */
  predicate ChunkWritten(d0: Dinode, b0: seq<Block>, off: nat, y: seq<Byte>, d: Dinode, b: seq<Block>) {
    && d0.size <= MAXFILE * BSIZE && d.size <= MAXFILE * BSIZE && off <= d0.size
    && Content(d, b) == Overwrite(Content(d0, b0), off, y)
  }

  /** No inode but `i` has changed, nor the contents of its file. */
  predicate OthersKept(sb: Super, b0: seq<Block>, b: seq<Block>, i: nat) {
    && sb.Ok() && |b0| == |b| == sb.size
    && forall j :: 0 <= j < sb.ninodes && j != i ==>
         Table(sb, b)[j] == Table(sb, b0)[j]
         && (Table(sb, b0)[j].size <= MAXFILE * BSIZE ==> Content(Table(sb, b)[j], b) == Content(Table(sb, b0)[j], b0))
  }

  class File {
    const fs: FileSys
    const ip: Inode
    var off: Word32

    constructor (fs: FileSys, ip: Inode, off: Word32)
      ensures this.fs == fs && this.ip == ip && this.off == off
    {
      this.fs, this.ip, this.off := fs, ip, off;
    }

    ghost predicate Valid()
      reads this, fs, ip
    {
      fs.Valid() && fs.InSync(ip) && ip.typ != 0 && ip.size <= MAXFILE * BSIZE
    }

    /** The first `i` bytes of `src` are in the file, `d0` and `b0` being what it started from. */
    ghost predicate Written(d0: Dinode, b0: seq<Block>, off0: nat, src: seq<Byte>, i: nat)
      reads this, fs, ip
    {
      && Valid() && off == off0 + i && Progress(fs.sb, d0, b0, off0, src, i, ip.D(), fs.blk)
    }

    lemma WrittenStart(src: seq<Byte>)
      requires Valid()
      ensures Written(ip.D(), fs.blk, off, src, 0)
    {
      hide Content, Good, DinodeIn, ExtendedBytes, NeedBytes, FreeBlocks;
      if off <= ip.size { NothingYet(ip.D(), fs.blk, off); }
    }

    lemma WrittenParts(d0: Dinode, b0: seq<Block>, off0: nat, src: seq<Byte>, i: nat)
      requires Written(d0, b0, off0, src, i)
      ensures Valid() && i <= |src| && off == off0 + i && |b0| == |fs.blk| && d0.size <= MAXFILE * BSIZE
      ensures i == 0 ==> fs.blk == b0 && ip.D() == d0
      ensures i > 0 ==> off0 <= d0.size && Content(ip.D(), fs.blk) == Overwrite(Content(d0, b0), off0, src[..i])
      ensures i < |src| ==> i % MAXCHUNK == 0
      ensures off0 <= d0.size ==> i <= Accepted(d0.size, off0, |src|)
      ensures off0 <= d0.size ==> NeedBytes(d0, b0, off0, i) <= FreeBlocks(fs.sb, b0)
    {
      hide Content, Overwrite, Good, DinodeIn, ExtendedBytes, NeedBytes, FreeBlocks, Accepted;
    }

    /** begin_op, ilock, writei, `f->off += r`, iunlock, end_op. */
    method Transaction(y: seq<Byte>) returns (w: Res<int>)
      requires Valid() && 0 < |y| <= MAXCHUNK
      modifies this, fs, ip
      ensures w.Panic? <==> OutOfBlocks(fs.sb, old(ip.D()), old(fs.blk), old(off), |y|)
      ensures w.Ok? ==> Valid() && |fs.logged| <= MAXOPBLOCKS
      ensures w.Ok? ==> w.value == if WriteRefused(old(ip.size), old(off), |y|) then -1 else |y|
      ensures w == Ok(-1) ==> fs.blk == old(fs.blk) && ip.D() == old(ip.D()) && off == old(off)
      ensures w.Ok? && w.value >= 0 ==> off == old(off) + |y| && off <= ip.size
      ensures w.Ok? && w.value >= 0 ==> ChunkWritten(old(ip.D()), old(fs.blk), old(off), y, ip.D(), fs.blk)
      ensures w.Ok? && w.value >= 0 ==> ExtendedBytes(old(ip.D()), old(fs.blk), ip.D(), fs.blk, old(off), |y|)
      ensures w.Ok? && w.value >= 0 ==>
        FreeBlocks(fs.sb, fs.blk) + NeedBytes(old(ip.D()), old(fs.blk), old(off), |y|) == FreeBlocks(fs.sb, old(fs.blk))
      ensures w.Ok? ==> OthersKept(fs.sb, old(fs.blk), fs.blk, ip.inum)
      ensures w.Ok? ==> fs.Journaled() && fs.start == old(fs.blk)
      ensures w.Ok? && fs.writes != [] ==> |Blocknos(fs.writes[..|fs.writes| - 1])| < MAXOPBLOCKS
    {
      hide Content, WriteCost, Good, DinodeIn, Bytes, ExtendedBytes, NeedBytes, FreeBlocks, WriteSet, TurnSet, Blocknos;
      fs.BeginOp();
      ghost var d0, b0 := ip.D(), fs.blk;
      SizeInSync(fs, ip);
      w := fs.Writei(ip, y, off);
      if w.Ok? {
        SizeInSync(fs, ip);
        if w.value > 0 {
          ChunkFitsReservation(off, |y|);
          WriteSetCost(fs.sb, ip.inum, d0, b0, ip.D(), fs.blk, off, |y|);
          if fs.writes != [] {
            Sets.CardSubset(Blocknos(fs.writes[..|fs.writes| - 1]),
                            TurnSet(fs.sb, d0, b0, ip.D(), fs.blk, off / BSIZE, LastBlock(off, |y|)));
          }
          off := off + w.value;
        }
      }
    }

    /** One turn of filewrite's loop. */
    method NextChunk(src: seq<Byte>, i: nat, n1: nat, ghost d0: Dinode, ghost b0: seq<Block>, ghost off0: nat)
      returns (w: Res<int>)
      requires Written(d0, b0, off0, src, i) && i < |src| && n1 == ChunkSize(|src| - i)
      modifies this, fs, ip
      ensures w.Panic? ==> off0 <= d0.size <= MAXFILE * BSIZE && |b0| == fs.sb.size && fs.sb.Ok()
      ensures w.Panic? ==> FreeBlocks(fs.sb, b0) < NeedBytes(d0, b0, off0, Accepted(d0.size, off0, |src|))
      ensures w.Ok? ==> |fs.logged| <= MAXOPBLOCKS && (w.value == -1 || w.value == n1)
      ensures w == Ok(-1) ==> Written(d0, b0, off0, src, i)
      ensures w == Ok(-1) ==> i == if off0 <= d0.size then Accepted(d0.size, off0, |src|) else 0
      ensures w == Ok(n1) ==> Written(d0, b0, off0, src, i + n1)
    {
      hide Content, Overwrite, Good, DinodeIn, ExtendedBytes, NeedBytes, FreeBlocks, Accepted, Progress, WriteRefused, Table;
      ghost var d, b := ip.D(), fs.blk;
      RefusedMeans(ip.size, off, n1);
      ProgressParts(fs.sb, d0, b0, off0, src, i, d, b);
      w := Transaction(src[i..i + n1]);
      if off0 <= d0.size {
        ChunkAccepted(d0.size, off0, |src|, i);
        if off0 + i + n1 <= MAXFILE * BSIZE {
          ProgressNeed(fs.sb, d0, b0, off0, src, i, d, b, n1);
        }
      }
      if w == Ok(n1) {
        ProgressStep(fs.sb, d0, b0, off0, src, i, d, b, n1, ip.D(), fs.blk);
      }
    }

    /** Write `src` at the file offset. Exactly the accepted bytes are written and the offset
        moves past them; the call succeeds if that is all of them. It panics exactly when the
        accepted bytes need more blocks than are free. `costs` lists how many distinct blocks
        each transaction logged. */
    method Filewrite(src: seq<Byte>) returns (r: Res<int>, i: nat, ghost costs: seq<nat>)
      requires Valid() && |src| < 0x8000_0000
      modifies this, fs, ip
      ensures forall k :: 0 <= k < |costs| ==> costs[k] <= MAXOPBLOCKS
      ensures r.Ok? ==> |costs| == Chunks(i) + if i < |src| then 1 else 0
      ensures r.Panic? <==>
        old(off) <= old(ip.size)
        && FreeBlocks(fs.sb, old(fs.blk)) < NeedBytes(old(ip.D()), old(fs.blk), old(off), Accepted(old(ip.size), old(off), |src|))
      ensures r.Ok? ==> Valid() && i == (if old(off) <= old(ip.size) then Accepted(old(ip.size), old(off), |src|) else 0)
      ensures r.Ok? ==> off == old(off) + i && r.value == if i == |src| then |src| else -1
      ensures r.Ok? && i == 0 ==> fs.blk == old(fs.blk) && ip.D() == old(ip.D())
      ensures r.Ok? && i > 0 ==> Content(ip.D(), fs.blk) == Overwrite(old(Content(ip.D(), fs.blk)), old(off), src[..i])
    {
      hide Content, Overwrite, Good, DinodeIn, NeedBytes, FreeBlocks, Accepted, Written, Chunks;
      costs := [];
      i := 0;
      var n := |src|;
      ghost var d0, b0, off0 := ip.D(), fs.blk, off;
      WrittenStart(src);
      assert Chunks(0) == 0 by { NoChunks(); }
      while i < n
        invariant Written(d0, b0, off0, src, i)
        invariant forall k :: 0 <= k < |costs| ==> costs[k] <= MAXOPBLOCKS
        invariant |costs| == Chunks(i)
      {
        WrittenParts(d0, b0, off0, src, i);
        var n1 := ChunkSize(n - i);
        NextChunks(i, n1);
        var w := NextChunk(src, i, n1, d0, b0, off0);
        if w.Panic? {
          return Panic, i, costs;
        }
        costs := costs + [|fs.logged|];
        if w.value < 0 {
          WrittenParts(d0, b0, off0, src, i);
          return Ok(-1), i, costs;
        }
        i := i + w.value;
      }
      WrittenParts(d0, b0, off0, src, i);
      r := Ok(n);
    }
  }
}
