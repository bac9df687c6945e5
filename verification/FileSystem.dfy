/** fs.c: the block allocator, the inode block map, and reading, writing and truncating files,
    on raw blocks. `logged` collects the distinct blocks handed to log_write. */
module FileSystem {
  import opened Blocks
  import opened FsSpec
  import opened FsCount
  import opened Sets
  import Redo = RedoLog

  datatype Res<T> = Ok(value: T) | Panic

  /** In-memory copy of an inode. */
  class Inode {
    const inum: nat
    var typ: Half
    var major: Half
    var minor: Half
    var nlink: Half
    var size: Word32
    var addrs: Addrs

    function D(): (d: Dinode)
      reads this
    {
      Dinode(typ, major, minor, nlink, size, addrs)
    }

    constructor (inum: nat, d: Dinode)
      ensures this.inum == inum && D() == d
    {
      this.inum := inum;
      typ, major, minor, nlink, size, addrs := d.typ, d.major, d.minor, d.nlink, d.size, d.addrs;
    }
  }

  lemma SameBitmapBlock(b: nat, bi: nat)
    requires b % BPB == 0 && bi < BPB
    ensures (b + bi) / BPB == b / BPB && (b + bi) % BPB == bi
  {
    assert b == BPB * (b / BPB);
    assert b + bi == BPB * (b / BPB) + bi;
  }

  // ---- what a write allocates and logs ----

  /** How many file blocks bytes [off, off + n) touch. */
  function Spanned(off: nat, n: nat): (k: nat) {
    if n == 0 then 0 else (off + n - 1) / BSIZE - off / BSIZE + 1
  }

  /** One past the last file block that bytes [off, off + n) touch. */
  function LastBlock(off: nat, n: nat): (k: nat)
    ensures off + n <= MAXFILE * BSIZE ==> k <= MAXFILE
  {
    off / BSIZE + Spanned(off, n)
  }

  /** Blocks that writing bytes [off, off + n) has to allocate. */
  function NeedBytes(d: Dinode, blk: seq<Block>, off: nat, n: nat): (k: nat)
    requires off + n <= MAXFILE * BSIZE
  {
    Need(d, blk, off / BSIZE, LastBlock(off, n))
  }

  /** The blocks of bytes [off, off + n) have become mapped, and no other slot was touched. */
  predicate ExtendedBytes(d0: Dinode, blk0: seq<Block>, d: Dinode, blk: seq<Block>, off: nat, n: nat) {
    Extended(d0, blk0, d, blk, off / BSIZE, LastBlock(off, n))
  }

  /** Everything a write logs. */
  function WriteSet(sb: Super, i: nat, d0: Dinode, blk0: seq<Block>, d: Dinode, blk: seq<Block>, off: nat, n: nat): (bs: set<nat>)
    requires off + n <= MAXFILE * BSIZE
  {
    TurnSet(sb, d0, blk0, d, blk, off / BSIZE, LastBlock(off, n))
    + if n > 0 && off + n > d0.size then {sb.IBlock(i)} else {}
  }

  lemma NeedBytesGrow(d: Dinode, blk: seq<Block>, off: nat, m: nat, n: nat)
    requires m <= n && off + n <= MAXFILE * BSIZE
    ensures NeedBytes(d, blk, off, m) <= NeedBytes(d, blk, off, n)
  {
    hide Slot, Need;
    assert LastBlock(off, m) <= LastBlock(off, n);
    NeedGrows(d, blk, off / BSIZE, LastBlock(off, m), LastBlock(off, n));
  }

  /** Writing the inode back changes no slot, so the account of the turns stands. */
  lemma Rewritten(sb: Super, d0: Dinode, blk0: seq<Block>, d: Dinode, blk: seq<Block>, e: Dinode, blk': seq<Block>, off: nat, n: nat)
    requires off + n <= MAXFILE * BSIZE && e == d.(size := e.size) && SameSlots(d, blk, e, blk', {})
    ensures ExtendedBytes(d0, blk0, d, blk, off, n) ==> ExtendedBytes(d0, blk0, e, blk', off, n)
    ensures TurnSet(sb, d0, blk0, e, blk', off / BSIZE, LastBlock(off, n))
         == TurnSet(sb, d0, blk0, d, blk, off / BSIZE, LastBlock(off, n))
  {
    hide Slot, TurnSet;
    var lo, hi := off / BSIZE, LastBlock(off, n);
    TurnSetSame(sb, d0, blk0, d, blk, e, blk', lo, hi);
    if ExtendedBytes(d0, blk0, d, blk, off, n) {
      forall b | 0 <= b < MAXFILE ensures ExtendedAt(d0, blk0, e, blk', lo, hi, b) {
        assert ExtendedAt(d0, blk0, d, blk, lo, hi, b);
      }
    }
  }

  lemma InodeWriteKeepsSlots(s: Fs, own: map<nat, Owner>, i: nat, size: Word32)
    requires OwnOk(s, own) && i < |s.tab|
    ensures var d := s.tab[i].(size := size);
            SameSlots(s.tab[i], s.blk, d, WithInode(s.sb, s.blk, i, d), {})
  {
    hide Slot, PutDinode;
    var blk := WithInode(s.sb, s.blk, i, s.tab[i].(size := size));
    assert s.sb.IBlock(i) < s.sb.bmapstart;
    OwnSlots(s, own, blk, i);
    ResizeSlots(s.tab[i], size, blk);
  }

  /** min(n - tot, BSIZE - off % BSIZE): as much as fits the block at hand. */
  function Chunk(off: nat, left: nat): (m: nat) {
    if left < BSIZE - off % BSIZE then left else BSIZE - off % BSIZE
  }

  /** A turn covers one more block and ends at a block boundary unless it ends the write. */
  lemma ChunkStep(off0: nat, tot: nat, left: nat)
    requires left > 0 && (tot > 0 ==> (off0 + tot) % BSIZE == 0)
    ensures var m := Chunk(off0 + tot, left);
            && 0 < m <= left && (off0 + tot) % BSIZE + m <= BSIZE
            && (m < left ==> (off0 + tot + m) % BSIZE == 0)
            && LastBlock(off0, tot) == (off0 + tot) / BSIZE
            && LastBlock(off0, tot + m) == (off0 + tot) / BSIZE + 1
  {
    var off, m := off0 + tot, Chunk(off0 + tot, left);
    InBlock(off, m - 1);
    if tot > 0 {
      assert (off - 1) / BSIZE + 1 == off / BSIZE;
    }
    if m < left {
      assert off == BSIZE * (off / BSIZE) + off % BSIZE;
      assert off + m == BSIZE * (off / BSIZE + 1);
    }
  }

  /** The indirect table stays where it is, and exists once an indirect block is mapped. */
  lemma GrownTable(s: Fs, own: map<nat, Owner>, t: Fs, own': map<nat, Owner>, i: nat, bn: nat)
    requires Grown(s, own, t, own', i) && bn < MAXFILE && Slot(t.tab[i], t.blk, DataSlot(bn)) != 0
    ensures s.tab[i].addrs[TABLE] != 0 ==> t.tab[i].addrs[TABLE] == s.tab[i].addrs[TABLE]
    ensures bn >= NDIRECT ==> t.tab[i].addrs[TABLE] != 0
  {
    SlotIsAddr(s.tab[i], s.blk, TABLE);
    SlotIsAddr(t.tab[i], t.blk, TABLE);
  }

  lemma GrownKeepsTable(s: Fs, own: map<nat, Owner>, t: Fs, own': map<nat, Owner>, i: nat)
    requires Grown(s, own, t, own', i)
    ensures Table(t.sb, t.blk) == Table(s.sb, s.blk)
  {
    TableFrame(s.sb, s.blk, t.blk);
  }

  function U32Add(a: Word32, b: Word32): (c: Word32) { (a + b) % 0x1_0000_0000 }

  /** writei refuses: past the end, wrapping, or beyond the largest file. */
  predicate WriteRefused(size: Word32, off: Word32, n: Word32) {
    off > size || U32Add(off, n) < off || U32Add(off, n) > MAXFILE * BSIZE
  }

  lemma GrownSelf(s: Fs, own: map<nat, Owner>, i: nat)
    requires Good(s, own, {}) && i < |s.tab|
    ensures Grown(s, own, s, own, i)
  {
  }

  lemma MetaBits(s: Fs, own: map<nat, Owner>)
    requires Good(s, own, {})
    ensures forall b :: 0 <= b < s.sb.Meta() ==> BitAt(s.sb, s.blk, b)
  {
  }

  lemma FreedKeepsTable(sb: Super, blk: seq<Block>, b: nat)
    requires sb.Ok() && |blk| == sb.size && b < sb.size
    ensures Table(sb, WithBit(sb, blk, b, false)) == Table(sb, blk)
    ensures OnlyBitmap(sb, blk, WithBit(sb, blk, b, false))
  {
    hide DinodeIn, PutBit;
    assert sb.bmapstart <= sb.BBlock(b) < sb.Meta();
    TableFrame(sb, blk, WithBit(sb, blk, b, false));
  }

  lemma OwnedInRange(s: Fs, own: map<nat, Owner>, b: nat)
    requires OwnOk(s, own) && b in own
    ensures s.sb.Meta() <= b < s.sb.size
  {
  }

  lemma TableInRange(s: Fs, own: map<nat, Owner>, i: nat)
    requires OwnOk(s, own) && i < |s.tab| && s.tab[i].addrs[TABLE] != 0
    ensures 0 < s.tab[i].addrs[TABLE] < |s.blk|
    ensures s.sb.Meta() <= s.tab[i].addrs[TABLE] < s.sb.size
  {
    SlotIsAddr(s.tab[i], s.blk, TABLE);
  }

  /** Ownership does not look at sizes. */
  lemma SizeIrrelevant(s: Fs, own: map<nat, Owner>, i: nat, size: Word32)
    requires s.Shape() && i < |s.tab|
    requires OwnOk(s.(tab := s.tab[i := s.tab[i].(size := size)]), own)
    requires BitsOk(s.(tab := s.tab[i := s.tab[i].(size := size)]), own, {})
    ensures OwnOk(s, own) && BitsOk(s, own, {})
  {
    hide Slot, Bit;
    ResizeSlots(s.tab[i], size, s.blk);
    var t := s.(tab := s.tab[i := s.tab[i].(size := size)]);
    assert forall j, k :: 0 <= j < |s.tab| && 0 <= k < NSLOTS ==> Slot(t.tab[j], s.blk, k) == Slot(s.tab[j], s.blk, k);
  }

  /** An inode that holds nothing may be given any type, or none. */
  lemma TypedGood(s: Fs, own: map<nat, Owner>, i: nat, d: Dinode)
    requires Good(s, own, {}) && i < |s.tab| && s.tab[i].size == 0 == d.size
    requires s.tab[i].addrs == NoAddrs() && d.addrs == NoAddrs()
    ensures Good(s.(tab := s.tab[i := d]), own, {})
    ensures Content(d, s.blk) == Content(s.tab[i], s.blk)
  {
    hide Bit;
    EmptyTable(d, s.blk);
    EmptyTable(s.tab[i], s.blk);
    var t := s.(tab := s.tab[i := d]);
    assert forall k :: 0 <= k < NSLOTS ==> Slot(d, s.blk, k) == Slot(s.tab[i], s.blk, k);
    assert forall j, k :: 0 <= j < |s.tab| && 0 <= k < NSLOTS ==> Slot(t.tab[j], s.blk, k) == Slot(s.tab[j], s.blk, k);
  }

  lemma InodeAt(s: Fs, i: nat)
    requires InodesOk(s) && i < |s.tab|
    ensures InodeOk(s.tab[i], s.blk)
  {
  }

  lemma MappedAt(d: Dinode, blk: seq<Block>, size: nat, off: nat)
    requires size <= MAXFILE * BSIZE && Mapped(d, blk, size) && off < size
    ensures off / BSIZE < MAXFILE && Slot(d, blk, DataSlot(off / BSIZE)) != 0
  {
    assert off / BSIZE < BlocksFor(size);
  }

  /** A chunk read from one block is that part of the file. */
  lemma ReadChunk(d: Dinode, blk: seq<Block>, size: nat, off: nat, m: nat)
    requires size <= MAXFILE * BSIZE && off + m <= size && off % BSIZE + m <= BSIZE && off / BSIZE < MAXFILE
    requires 0 < Slot(d, blk, DataSlot(off / BSIZE)) < |blk|
    ensures blk[Slot(d, blk, DataSlot(off / BSIZE))][off % BSIZE..off % BSIZE + m] == Bytes(d, blk, size)[off..off + m]
  {
    hide Slot;
    var b := blk[Slot(d, blk, DataSlot(off / BSIZE))];
    var part, want := b[off % BSIZE..off % BSIZE + m], Bytes(d, blk, size)[off..off + m];
    forall y | 0 <= y < m ensures part[y] == want[y] {
      InBlock(off, y);
      BytesAt(d, blk, size, off + y);
    }
  }

  lemma SliceConcat(c: seq<Byte>, x: nat, y: nat, z: nat)
    requires x <= y <= z <= |c|
    ensures c[x..y] + c[y..z] == c[x..z]
  {
  }

  lemma AllocatedKeepsTable(sb: Super, blk: seq<Block>, b: nat)
    requires sb.Ok() && |blk| == sb.size && sb.Meta() <= b < sb.size
    ensures Table(sb, Allocated(sb, blk, b)) == Table(sb, blk)
  {
    TableFrame(sb, blk, Allocated(sb, blk, b));
  }

  /** Distinct blocks logged by a write: a data block each; a bitmap block for each that had to
      be allocated, which a partly filled first block never does; the indirect table and its
      bitmap block; the inode. */
  function WriteCost(off: nat, n: nat): (k: nat) {
    if n == 0 then 0 else 2 * Spanned(off, n) - (if off % BSIZE != 0 then 1 else 0) + 3
  }

  /** Where two adjoining byte ranges meet. */
  lemma Joined(off: nat, m: nat, n: nat)
    requires n > 0
    ensures off / BSIZE <= (off + m) / BSIZE <= LastBlock(off, m) <= (off + m) / BSIZE + 1
    ensures LastBlock(off, m) <= LastBlock(off, m + n) == LastBlock(off + m, n)
  {
  }

  /** Two writes, one right after the other, allocate what the joined write would. */
  lemma NeedBytesSplit(d0: Dinode, blk0: seq<Block>, d: Dinode, blk: seq<Block>, off: nat, m: nat, n: nat)
    requires n > 0 && off + m + n <= MAXFILE * BSIZE && ExtendedBytes(d0, blk0, d, blk, off, m)
    ensures NeedBytes(d0, blk0, off, m + n) == NeedBytes(d0, blk0, off, m) + NeedBytes(d, blk, off + m, n)
  {
    hide Slot, Need, Extended;
    Joined(off, m, n);
    NeedSplit(d0, blk0, d, blk, off / BSIZE, LastBlock(off, m), (off + m) / BSIZE, LastBlock(off + m, n));
  }

  lemma ExtendedBytesTrans(d0: Dinode, blk0: seq<Block>, d: Dinode, blk: seq<Block>, e: Dinode, blk': seq<Block>,
                           off: nat, m: nat, n: nat)
    requires n > 0 && ExtendedBytes(d0, blk0, d, blk, off, m) && ExtendedBytes(d, blk, e, blk', off + m, n)
    ensures ExtendedBytes(d0, blk0, e, blk', off, m + n)
  {
    hide Slot, Extended;
    Joined(off, m, n);
    ExtendedTrans(d0, blk0, d, blk, e, blk', off / BSIZE, LastBlock(off, m), (off + m) / BSIZE, LastBlock(off + m, n));
  }

  /** A write that starts inside a block of the file finds that block mapped. */
  lemma FirstMapped(d: Dinode, blk: seq<Block>, off: nat)
    requires off <= d.size && InodeOk(d, blk) && off % BSIZE != 0
    ensures Slot(d, blk, DataSlot(off / BSIZE)) != 0
  {
    hide Slot;
    MappedAt(d, blk, d.size, off - 1);
    InBlock(off - off % BSIZE, off % BSIZE - 1);
  }

  /** A write logs no more than its cost. */
  lemma WriteSetCost(sb: Super, i: nat, d0: Dinode, blk0: seq<Block>, d: Dinode, blk: seq<Block>, off: nat, n: nat)
    requires off + n <= MAXFILE * BSIZE && off <= d0.size && InodeOk(d0, blk0)
    ensures |WriteSet(sb, i, d0, blk0, d, blk, off, n)| <= WriteCost(off, n)
    ensures n > 0 ==> |TurnSet(sb, d0, blk0, d, blk, off / BSIZE, LastBlock(off, n))| < WriteCost(off, n)
  {
    hide Slot, InodeOk, TurnLog;
    if n > 0 {
      var lo, hi := off / BSIZE, LastBlock(off, n);
      var own := TurnSetCost(sb, d0, blk0, d, blk, lo, hi);
      var table: set<nat> := {d.addrs[TABLE], sb.BBlock(d.addrs[TABLE])};
      if off % BSIZE != 0 { FirstMapped(d0, blk0, off); }
      CardThree(own, table, {sb.IBlock(i)}, WriteSet(sb, i, d0, blk0, d, blk, off, n));
      CardThree(own, table, {}, TurnSet(sb, d0, blk0, d, blk, lo, hi));
    } else {
      assert TurnSet(sb, d0, blk0, d, blk, off / BSIZE, off / BSIZE) == {};
    }
  }

  /** The blocks that `ws` writes. */
  function Blocknos(ws: seq<Redo.Write>): (bs: set<nat>) {
    set w | w in ws :: w.blockno
  }

  lemma JournalMore(start: seq<Block>, ws: seq<Redo.Write>, w: Redo.Write)
    ensures Redo.ApplyAll(start, ws + [w]) == Redo.Put(Redo.ApplyAll(start, ws), w)
    ensures Blocknos(ws + [w]) == Blocknos(ws) + {w.blockno}
  {
    Redo.ApplySame(start, ws + [w], ws, |ws|);
    assert forall v :: v in ws + [w] <==> v in ws || v == w;
    assert w in ws + [w];
  }

  class FileSys {
    const sb: Super
    var blk: seq<Block>
    ghost var own: map<nat, Owner>
    ghost var logged: set<nat>
    ghost var start: seq<Block>           // the blocks when the transaction began
    ghost var writes: seq<Redo.Write>     // every block handed to log_write since, in order

    ghost predicate Formed()
      reads this
    {
      sb.Ok() && |blk| == sb.size
    }

    /** Between operations: the inode table on disk is the inode table, and it owns exactly the
        blocks the bitmap marks. */
    ghost predicate Valid()
      reads this
    {
      Formed() && Good(Fs(sb, Table(sb, blk), blk), own, {})
    }

    constructor (sb: Super, blk: seq<Block>, ghost own: map<nat, Owner>)
      requires sb.Ok() && |blk| == sb.size && Good(Fs(sb, Table(sb, blk), blk), own, {})
      ensures this.sb == sb && this.blk == blk && this.own == own && logged == {} && Valid()
    {
      this.sb, this.blk, this.own, logged := sb, blk, own, {};
      start, writes := blk, [];
    }

    /** The file system with `ip`'s in-memory inode in place of its disk copy. */
    ghost function View(ip: Inode): (s: Fs)
      requires Formed() && ip.inum < sb.ninodes
      reads this, ip
    {
      Fs(sb, Table(sb, blk)[ip.inum := ip.D()], blk)
    }

    ghost predicate InSync(ip: Inode)
      reads this, ip
    {
      Formed() && ip.inum < sb.ninodes && ip.D() == Table(sb, blk)[ip.inum]
    }

    ghost predicate Holds(ip: Inode)
      reads this, ip
    {
      Formed() && ip.inum < sb.ninodes && ip.typ != 0 && Good(View(ip), own, {})
    }

    /** The blocks are what the writes of the transaction, none of them below the inodes, make of
        those it began with. */
    ghost predicate Journaled()
      reads `start, `blk, `writes, `logged
    {
      && |start| == |blk| && blk == Redo.ApplyAll(start, writes) && logged == Blocknos(writes)
      && forall b :: b in logged ==> sb.inodestart <= b < |blk|
    }

    /** A new transaction starts with an empty block list. */
    method BeginOp()
      modifies `logged, `start, `writes
      ensures logged == {} && writes == [] && start == blk && Journaled()
    {
      logged, start, writes := {}, blk, [];
    }

    /** The last write but for one is to blocks already logged. */
    lemma JournalSet()
      requires Journaled()
      ensures Blocknos(writes) == logged
      ensures writes != [] ==> Blocknos(writes[..|writes| - 1]) <= logged
    {
    }

    method LogWrite(b: nat, data: Block)
      requires b < |blk|
      modifies `blk, `logged, `writes
      ensures blk == old(blk)[b := data] && logged == old(logged) + {b}
      ensures writes == old(writes) + [Redo.Write(b, data)]
      ensures old(Journaled()) && sb.inodestart <= b ==> Journaled()
    {
      if old(Journaled()) { JournalMore(start, writes, Redo.Write(b, data)); }
      blk := blk[b := data];
      logged := logged + {b};
      writes := writes + [Redo.Write(b, data)];
    }

    method Bzero(b: nat)
      requires b < |blk|
      modifies `blk, `logged, `writes
      ensures blk == old(blk)[b := ZeroBlock()] && logged == old(logged) + {b}
      ensures old(Journaled()) && sb.inodestart <= b ==> Journaled()
    {
      LogWrite(b, ZeroBlock());
    }

    /** Allocate the first free block, zeroed. */
    method Balloc() returns (r: Res<Word32>)
      requires Formed()
      requires forall b :: 0 <= b < sb.Meta() ==> BitAt(sb, blk, b)
      modifies `blk, `logged, `writes
      ensures Formed()
      ensures r.Panic? <==> forall b :: 0 <= b < sb.size ==> BitAt(sb, old(blk), b)
      ensures r.Panic? ==> blk == old(blk) && logged == old(logged)
      ensures r.Ok? ==> sb.Meta() <= r.value < sb.size && !BitAt(sb, old(blk), r.value)
      ensures r.Ok? ==> forall c :: 0 <= c < r.value ==> BitAt(sb, old(blk), c)
      ensures r.Ok? ==> blk == Allocated(sb, old(blk), r.value)
      ensures r.Ok? ==> logged == old(logged) + {sb.BBlock(r.value), r.value}
      ensures old(Journaled()) ==> Journaled()
    {
      hide Bit, PutBit, Journaled;
      var b := 0;
      while b < sb.size
        invariant b % BPB == 0
        invariant blk == old(blk) && logged == old(logged) && writes == old(writes)
        invariant forall c :: 0 <= c < b && c < sb.size ==> BitAt(sb, blk, c)
      {
        var bp := blk[sb.BBlock(b)];
        var bi := 0;
        while bi < BPB && b + bi < sb.size
          invariant 0 <= bi <= BPB
          invariant blk == old(blk) && logged == old(logged) && writes == old(writes)
          invariant forall c :: 0 <= c < b + bi && c < sb.size ==> BitAt(sb, blk, c)
        {
          SameBitmapBlock(b, bi);
          if !Bit(bp, bi) {
            assert !BitAt(sb, blk, b + bi);
            LogWrite(sb.BBlock(b), PutBit(bp, bi, true));
            Bzero(b + bi);
            return Ok(b + bi);
          }
          bi := bi + 1;
        }
        b := b + BPB;
      }
      return Panic;
    }

    /** Free a block; the panic is for a block that is already free. */
    method Bfree(b: nat) returns (r: Res<()>)
      requires Formed() && b < sb.size
      modifies `blk, `logged, `writes
      ensures Formed()
      ensures r.Panic? <==> !BitAt(sb, old(blk), b)
      ensures r.Panic? ==> blk == old(blk) && logged == old(logged)
      ensures r.Ok? ==> blk == WithBit(sb, old(blk), b, false)
      ensures r.Ok? ==> logged == old(logged) + {sb.BBlock(b)}
    {
      var bp := blk[sb.BBlock(b)];
      var bi := b % BPB;
      if !Bit(bp, bi) {
        return Panic;
      }
      LogWrite(sb.BBlock(b), PutBit(bp, bi, false));
      r := Ok(());
    }

    /** Copy a modified in-memory inode to disk. */
    method Iupdate(ip: Inode)
      requires Formed() && ip.inum < sb.ninodes
      modifies `blk, `logged, `writes
      ensures blk == WithInode(sb, old(blk), ip.inum, ip.D())
      ensures logged == old(logged) + {sb.IBlock(ip.inum)}
      ensures InSync(ip)
      ensures |writes| == |old(writes)| + 1 && writes[..|old(writes)|] == old(writes)
      ensures old(Journaled()) ==> Journaled()
    {
      hide Journaled;
      TableOfWithInode(sb, blk, ip.inum, ip.D());
      var bp := blk[sb.IBlock(ip.inum)];
      LogWrite(sb.IBlock(ip.inum), PutDinode(bp, ip.inum % IPB, ip.D()));
    }

    /** `ip->addrs[k] = balloc()`, for a direct slot or the indirect table. */
    method AllocSlot(ip: Inode, k: nat) returns (r: Res<Word32>)
      requires Holds(ip) && k <= TABLE && ip.addrs[k] == 0
      modifies this, ip`addrs
      ensures Formed() && (r.Panic? <==> |old(own)| == sb.nblocks)
      ensures r.Ok? ==> r.value != 0 && ip.addrs == old(ip.addrs)[k := r.value] && |own| == |old(own)| + 1
      ensures r.Ok? ==> SameSlots(old(ip.D()), old(blk), ip.D(), blk, {k})
      ensures r.Ok? ==> logged == old(logged) + {sb.BBlock(r.value), r.value}
      ensures r.Ok? && old(Journaled()) ==> Journaled() && start == old(start)
      ensures r.Ok? ==> Holds(ip) && Grown(old(View(ip)), old(own), View(ip), own, ip.inum)
    {
      hide Slot, Bit, Good, BitsOk, OwnOk, InodesOk, Grown, DinodeIn, Journaled;
      ghost var s, own0, i := View(ip), own, ip.inum;
      assert forall b :: 0 <= b < sb.Meta() ==> BitAt(sb, blk, b) by { MetaBits(s, own0); }
      FullMeansAllOwned(s, own0);
      r := Balloc();
      if r.Panic? {
        return;
      }
      AllocAttach(s, own0, i, k, r.value);
      AllocatedKeepsTable(sb, s.blk, r.value);
      ip.addrs := ip.addrs[k := r.value];
      own := own[r.value := Owner(i, k)];
      assert View(ip) == Fs(sb, s.tab[i := WithAddr(s.tab[i], k, r.value)], blk);
    }

    /** `a[j] = balloc()` in the indirect table, then log the table. */
    method AllocEntry(ip: Inode, j: nat) returns (r: Res<Word32>)
      requires Holds(ip) && j < NINDIRECT && ip.addrs[TABLE] != 0
      requires Slot(ip.D(), blk, TABLE + 1 + j) == 0
      modifies this
      ensures Formed() && (r.Panic? <==> |old(own)| == sb.nblocks)
      ensures r.Ok? ==> r.value != 0 && Slot(ip.D(), blk, TABLE + 1 + j) == r.value && |own| == |old(own)| + 1
      ensures r.Ok? ==> SameSlots(old(ip.D()), old(blk), ip.D(), blk, {TABLE + 1 + j})
      ensures r.Ok? ==> logged == old(logged) + {sb.BBlock(r.value), r.value, ip.addrs[TABLE]}
      ensures r.Ok? && old(Journaled()) ==> Journaled() && start == old(start)
      ensures r.Ok? ==> Holds(ip) && Grown(old(View(ip)), old(own), View(ip), own, ip.inum)
    {
      hide Slot, Bit, Good, BitsOk, OwnOk, InodesOk, Grown, DinodeIn, PutWord, Journaled;
      ghost var s, own0, i := View(ip), own, ip.inum;
      assert forall b :: 0 <= b < sb.Meta() ==> BitAt(sb, blk, b) by { MetaBits(s, own0); }
      FullMeansAllOwned(s, own0);
      SlotIsAddr(s.tab[i], s.blk, TABLE);
      SlotInRange(s, own0, i, TABLE);
      var t := ip.addrs[TABLE];
      var bp := blk[t];
      r := Balloc();
      if r.Panic? {
        return;
      }
      AllocAttachEntry(s, own0, i, j, r.value);
      AllocatedKeepsTable(sb, s.blk, r.value);
      assert blk[t] == bp;
      ghost var m := blk;
      LogWrite(t, PutWord(bp, j, r.value));
      TableFrame(sb, m, blk);
      own := own[r.value := Owner(i, TABLE + 1 + j)];
    }

    /** bmap for a block reached through the indirect table. */
    method BmapIndirect(ip: Inode, j: nat) returns (r: Res<Word32>)
      requires Holds(ip) && j < NINDIRECT
      modifies this, ip`addrs
      ensures Formed()
      ensures r.Panic? <==> sb.nblocks - |old(own)| < Lacks(old(ip.D()), old(blk), NDIRECT + j)
      ensures r.Ok? ==> |own| == |old(own)| + Lacks(old(ip.D()), old(blk), NDIRECT + j)
      ensures r.Ok? ==> SameSlots(old(ip.D()), old(blk), ip.D(), blk, {TABLE + 1 + j, TABLE})
      ensures r.Ok? ==> r.value != 0 && r.value == Slot(ip.D(), blk, TABLE + 1 + j)
      ensures r.Ok? && Slot(old(ip.D()), old(blk), TABLE + 1 + j) != 0 ==>
                ip.addrs == old(ip.addrs) && blk == old(blk) && own == old(own) && logged == old(logged)
      ensures r.Ok? && Slot(old(ip.D()), old(blk), TABLE + 1 + j) == 0 ==>
                logged == old(logged) + BmapLog(sb, NDIRECT + j, old(ip.addrs)[TABLE] == 0, ip.addrs[TABLE], r.value)
      ensures r.Ok? && old(Journaled()) ==> Journaled() && start == old(start)
      ensures r.Ok? ==> Holds(ip) && Grown(old(View(ip)), old(own), View(ip), own, ip.inum)
    {
      hide Bit, Good, BitsOk, OwnOk, InodesOk, Grown, DinodeIn, Word, Slot, Journaled;
      ghost var s, own0, i := View(ip), own, ip.inum;
      GrownSelf(s, own0, i);
      FullMeansAllOwned(s, own0);
      if ip.addrs[TABLE] == 0 {
        EmptyTable(ip.D(), blk);
        var t := AllocSlot(ip, TABLE);
        if t.Panic? {
          return Panic;
        }
        FullMeansAllOwned(View(ip), own);
      }
      ghost var m, own1 := View(ip), own;
      SlotIsAddr(m.tab[i], m.blk, TABLE);
      SlotInRange(m, own1, i, TABLE);
      SlotIsEntry(ip.D(), blk, j);
      var a := Word(blk[ip.addrs[TABLE]], j);
      if a == 0 {
        r := AllocEntry(ip, j);
        if r.Ok? {
          GrownTrans(s, own0, m, own1, View(ip), own, i);
        }
        return;
      }
      return Ok(a);
    }

    /** The disk address of file block `bn`, allocating it (and the indirect table) if missing. It
        panics for a block beyond the largest file, and when too few blocks are free. */
    method Bmap(ip: Inode, bn: nat) returns (r: Res<Word32>)
      requires Holds(ip)
      modifies this, ip`addrs
      ensures Formed()
      ensures r.Panic? <==> bn >= MAXFILE || sb.nblocks - |old(own)| < Lacks(old(ip.D()), old(blk), bn)
      ensures r.Ok? ==> |own| == |old(own)| + Lacks(old(ip.D()), old(blk), bn)
      ensures r.Ok? ==> SameSlots(old(ip.D()), old(blk), ip.D(), blk, {DataSlot(bn), TABLE})
      ensures r.Ok? && bn < NDIRECT ==> ip.addrs[TABLE] == old(ip.addrs)[TABLE]
      ensures r.Ok? ==> r.value != 0 && r.value == Slot(ip.D(), blk, DataSlot(bn))
      ensures r.Ok? && Slot(old(ip.D()), old(blk), DataSlot(bn)) != 0 ==>
                ip.addrs == old(ip.addrs) && blk == old(blk) && own == old(own) && logged == old(logged)
      ensures r.Ok? && Slot(old(ip.D()), old(blk), DataSlot(bn)) == 0 ==>
                logged == old(logged) + BmapLog(sb, bn, old(ip.addrs)[TABLE] == 0, ip.addrs[TABLE], r.value)
      ensures r.Ok? && old(Journaled()) ==> Journaled() && start == old(start)
      ensures r.Ok? ==> Holds(ip) && Grown(old(View(ip)), old(own), View(ip), own, ip.inum)
    {
      hide Bit, Good, BitsOk, OwnOk, InodesOk, Grown, DinodeIn, Slot, Journaled;
      if bn < NDIRECT {
        SlotIsAddr(ip.D(), blk, bn);
        FullMeansAllOwned(View(ip), own);
        GrownSelf(View(ip), own, ip.inum);
        if ip.addrs[bn] == 0 {
          r := AllocSlot(ip, bn);
          if r.Ok? { SlotIsAddr(ip.D(), blk, bn); }
          return;
        }
        return Ok(ip.addrs[bn]);
      }
      var j := bn - NDIRECT;
      if j < NINDIRECT {
        r := BmapIndirect(ip, j);
        return;
      }
      return Panic;
    }

    /** One turn of writei's loop: map the block, copy `x` into it at `lo`, log it. */
    method WriteBlock(ip: Inode, bn: nat, lo: nat, x: seq<Byte>, ghost cur: nat) returns (r: Res<()>)
      requires Holds(ip) && bn < MAXFILE && lo + |x| <= BSIZE
      requires cur <= MAXFILE * BSIZE && Mapped(ip.D(), blk, cur)
      modifies this, ip`addrs
      ensures r.Ok? && bn < BlocksFor(cur) ==> ip.addrs == old(ip.addrs)
      ensures r.Panic? <==> sb.nblocks - |old(own)| < Lacks(old(ip.D()), old(blk), bn)
      ensures r.Ok? ==> |own| == |old(own)| + Lacks(old(ip.D()), old(blk), bn)
      ensures r.Ok? ==> Turn(old(ip.D()), old(blk), ip.D(), blk, bn)
      ensures r.Ok? ==> logged == old(logged) + WriteLog(sb, bn, old(Slot(ip.D(), blk, DataSlot(bn))),
                                                         old(ip.addrs)[TABLE], ip.addrs[TABLE], Slot(ip.D(), blk, DataSlot(bn)))
      ensures r.Ok? && old(Journaled()) ==> Journaled() && start == old(start)
      ensures r.Ok? ==> Holds(ip) && Table(sb, blk) == old(Table(sb, blk))
      ensures r.Ok? ==> BlockWritten(old(View(ip)), View(ip), ip.inum, bn, lo, x, cur)
    {
      hide Slot, Bit, Good, BitsOk, OwnOk, InodesOk, Grown, DinodeIn, Patch, BlockWritten, Journaled;
      ghost var s, own0, i := View(ip), own, ip.inum;
      var a := Bmap(ip, bn);
      if a.Panic? {
        return Panic;
      }
      ghost var m := View(ip);
      GrownKeepsTable(s, own0, m, own, i);
      GrownTable(s, own0, m, own, i, bn);
      MapThenPatch(s, own0, m, own, i, bn, lo, x, cur);
      var bp := blk[a.value];
      LogWrite(a.value, Patch(bp, lo, x));
      TableFrame(sb, m.blk, blk);
      assert View(ip) == m.(blk := blk);
      r := Ok(());
    }

    /** `ip->size = off; iupdate(ip)` at the end of a write that reached past the end. */
    method GrowFile(ip: Inode, src: seq<Byte>, off0: nat, ghost s0: Fs)
      requires Holds(ip) && Table(sb, blk) == s0.tab && s0.sb == sb && src != []
      requires Writing(s0, View(ip), own, ip.inum, off0, src, |src|) && off0 + |src| > s0.tab[ip.inum].size
      requires off0 + |src| <= MAXFILE * BSIZE
      modifies `blk, `logged, `writes, ip`size
      ensures Valid() && InSync(ip)
      ensures ip.D() == s0.tab[ip.inum].(addrs := ip.addrs, size := ip.size)
      ensures Content(ip.D(), blk) == Overwrite(Content(s0.tab[ip.inum], s0.blk), off0, src)
      ensures Table(sb, blk) == s0.tab[ip.inum := ip.D()]
      ensures forall j :: 0 <= j < sb.ninodes && j != ip.inum ==> Content(s0.tab[j], blk) == Content(s0.tab[j], s0.blk)
      ensures logged == old(logged) + {sb.IBlock(ip.inum)}
      ensures ip.D() == old(ip.D()).(size := ip.size) && SameSlots(old(ip.D()), old(blk), ip.D(), blk, {})
      ensures |writes| == |old(writes)| + 1 && writes[..|old(writes)|] == old(writes)
      ensures old(Journaled()) ==> Journaled()
    {
      hide Slot, Bit, Good, DinodeIn, Writing, Bytes, WithInode, Overwrite, OwnOk, BitsOk, Mapped, SameSlots, BlocksFor, Journaled;
      ghost var s1, i := View(ip), ip.inum;
      WritingPast(s0, s1, own, i, off0, src);
      GoodParts(s1, own, {});
      InodeWriteKeepsSlots(s1, own, i, off0 + |src|);
      ip.size := off0 + |src|;
      ghost var u := View(ip);
      assert u == s1.(tab := s1.tab[i := s1.tab[i].(size := off0 + |src|)]);
      GoodParts(u, own, {});
      InodeWritten(u, own, i, ip.D());
      TableOfWithInode(sb, blk, i, ip.D());
      Iupdate(ip);
      assert Table(sb, blk) == u.tab;
      forall j | 0 <= j < sb.ninodes && j != i ensures Content(s0.tab[j], blk) == Content(s0.tab[j], s0.blk) {
        assert u.tab[j] == s1.tab[j] == s0.tab[j];
      }
    }

    /** The write has gone through its first `done` bytes: it has mapped exactly the blocks they
        touch, allocated what those lacked, and logged exactly what that takes. */
    ghost predicate Turned(ip: Inode, s0: Fs, n0: nat, base: set<nat>, off0: nat, done: nat)
      requires off0 + done <= MAXFILE * BSIZE && ip.inum < |s0.tab|
      reads this, ip
    {
      && ExtendedBytes(s0.tab[ip.inum], s0.blk, ip.D(), blk, off0, done)
      && |own| == n0 + NeedBytes(s0.tab[ip.inum], s0.blk, off0, done)
      && logged == base + TurnSet(sb, s0.tab[ip.inum], s0.blk, ip.D(), blk, off0 / BSIZE, LastBlock(off0, done))
    }

    lemma TurnedStart(ip: Inode, s0: Fs, off0: nat)
      requires off0 <= MAXFILE * BSIZE && ip.inum < |s0.tab| && s0.tab[ip.inum] == ip.D() && s0.blk == blk
      ensures Turned(ip, s0, |own|, logged, off0, 0)
      ensures NeedBytes(ip.D(), blk, off0, 0) == 0
    {
      ExtendedSelf(ip.D(), blk, off0 / BSIZE);
    }

    /** One turn of writei's loop: `m` bytes into the block at off0 + tot. */
    method WriteTurn(ip: Inode, src: seq<Byte>, off0: nat, tot: nat, m: nat,
                     ghost s0: Fs, ghost n0: nat, ghost base: set<nat>)
      returns (r: Res<()>)
      requires Holds(ip) && Table(sb, blk) == s0.tab && s0.sb == sb && ip.inum < |s0.tab|
      requires off0 + |src| <= MAXFILE * BSIZE
      requires Writing(s0, View(ip), own, ip.inum, off0, src, tot) && (tot > 0 ==> (off0 + tot) % BSIZE == 0)
      requires 0 < m <= |src| - tot && (off0 + tot) % BSIZE + m <= BSIZE
      requires LastBlock(off0, tot) == (off0 + tot) / BSIZE && LastBlock(off0, tot + m) == (off0 + tot) / BSIZE + 1
      requires Turned(ip, s0, n0, base, off0, tot)
      modifies this, ip`addrs
      ensures r.Panic? <==> sb.nblocks - n0 < NeedBytes(s0.tab[ip.inum], s0.blk, off0, tot + m)
      ensures r.Ok? ==> Turned(ip, s0, n0, base, off0, tot + m)
      ensures r.Ok? && old(Journaled()) ==> Journaled() && start == old(start)
      ensures r.Ok? ==> Holds(ip) && Table(sb, blk) == s0.tab
      ensures r.Ok? ==> Writing(s0, View(ip), own, ip.inum, off0, src, tot + m)
    {
      hide Slot, Bit, Good, DinodeIn, BlockWritten, Writing, WriteLog, Bytes, Reached, BlocksFor, Mapped, Lacks,
           Need, TurnSet, Extended, Turn, Journaled;
      ghost var i, s, o := ip.inum, View(ip), own;
      ghost var d0, e := s0.tab[i], ip.D();
      var bn, lo := (off0 + tot) / BSIZE, (off0 + tot) % BSIZE;
      WritingMapped(s0, s, o, i, off0, src, tot);
      NeedStep(d0, s0.blk, e, blk, off0 / BSIZE, bn);
      r := WriteBlock(ip, bn, lo, src[tot..tot + m], Reached(s0, i, off0 + tot));
      if r.Panic? {
        return;
      }
      WritingStep(s0, s, o, View(ip), own, i, off0, src, tot, m);
      TurnExtends(d0, s0.blk, e, s.blk, ip.D(), blk, off0 / BSIZE, bn);
      TurnLogs(sb, d0, s0.blk, e, s.blk, ip.D(), blk, off0 / BSIZE, bn);
    }

    /** writei's loop over the blocks that bytes [off0, off0 + n) touch. */
    method WriteTurns(ip: Inode, src: seq<Byte>, off0: nat) returns (r: Res<()>)
      requires Valid() && InSync(ip) && ip.typ != 0
      requires off0 <= ip.size && off0 + |src| <= MAXFILE * BSIZE
      modifies this, ip`addrs
      ensures r.Panic? <==> sb.nblocks - |old(own)| < NeedBytes(old(ip.D()), old(blk), off0, |src|)
      ensures r.Ok? ==> Turned(ip, old(View(ip)), |old(own)|, old(logged), off0, |src|)
      ensures r.Ok? && old(Journaled()) ==> Journaled() && start == old(start)
      ensures r.Ok? ==> Holds(ip) && Table(sb, blk) == old(Table(sb, blk))
      ensures r.Ok? ==> Writing(old(View(ip)), View(ip), own, ip.inum, off0, src, |src|)
    {
      hide Good, Writing, Chunk, DinodeIn, Turned, NeedBytes, Journaled;
      ghost var s0, n0, i := View(ip), |own|, ip.inum;
      assert s0.tab == Table(sb, blk);
      WritingStart(s0, own, i, off0, src);
      FullMeansAllOwned(s0, own);
      TurnedStart(ip, s0, off0);
      var n := |src|;
      var tot := 0;
      while tot < n
        invariant 0 <= tot <= n && (tot > 0 && tot < n ==> (off0 + tot) % BSIZE == 0)
        invariant Holds(ip) && Table(sb, blk) == s0.tab
        invariant Writing(s0, View(ip), own, i, off0, src, tot)
        invariant Turned(ip, s0, n0, old(logged), off0, tot)
        invariant NeedBytes(s0.tab[i], s0.blk, off0, tot) <= sb.nblocks - n0
        invariant old(Journaled()) ==> Journaled() && start == old(start)
      {
        var m := Chunk(off0 + tot, n - tot);
        ChunkStep(off0, tot, n - tot);
        NeedBytesGrow(s0.tab[i], s0.blk, off0, tot + m, n);
        var w := WriteTurn(ip, src, off0, tot, m, s0, n0, old(logged));
        if w.Panic? {
          return Panic;
        }
        tot := tot + m;
      }
      r := Ok(());
    }

    /** writei replaces exactly content[off..off + n], or refuses and changes nothing. */
    method Writei(ip: Inode, src: seq<Byte>, off0: Word32) returns (r: Res<int>)
      requires Valid() && InSync(ip) && ip.typ != 0 && |src| < 0x1_0000_0000
      modifies this, ip`addrs, ip`size
      ensures r.Ok? ==> r.value == if WriteRefused(old(ip.size), off0, |src|) then -1 else |src|
      ensures r.Panic? <==> !WriteRefused(old(ip.size), off0, |src|)
                            && FreeBlocks(sb, old(blk)) < NeedBytes(old(ip.D()), old(blk), off0, |src|)
      ensures r == Ok(-1) ==> blk == old(blk) && ip.D() == old(ip.D()) && own == old(own)
      ensures r == Ok(-1) ==> logged == old(logged) && writes == old(writes)
      ensures r.Ok? ==> Valid() && InSync(ip)
      ensures r.Ok? && r.value >= 0 ==>
        off0 <= old(ip.size) && Content(ip.D(), blk) == Overwrite(old(Content(ip.D(), blk)), off0, src)
      ensures r.Ok? ==> forall j :: 0 <= j < sb.ninodes && j != ip.inum ==>
        Table(sb, blk)[j] == old(Table(sb, blk)[j]) && Content(Table(sb, blk)[j], blk) == old(Content(Table(sb, blk)[j], blk))
      ensures r.Ok? ==> ip.D() == old(ip.D()).(addrs := ip.addrs, size := ip.size)
      ensures r.Ok? && r.value >= 0 ==>
        FreeBlocks(sb, blk) + NeedBytes(old(ip.D()), old(blk), off0, |src|) == FreeBlocks(sb, old(blk))
      ensures r.Ok? && r.value >= 0 ==> ExtendedBytes(old(ip.D()), old(blk), ip.D(), blk, off0, |src|)
      ensures r.Ok? && r.value >= 0 ==>
        logged == old(logged) + WriteSet(sb, ip.inum, old(ip.D()), old(blk), ip.D(), blk, off0, |src|)
      ensures r.Ok? && old(Journaled()) ==> Journaled() && start == old(start)
      ensures r.Ok? && r.value >= 0 && old(Journaled()) && writes != [] ==>
        Blocknos(writes[..|writes| - 1])
        <= old(logged) + TurnSet(sb, old(ip.D()), old(blk), ip.D(), blk, off0 / BSIZE, LastBlock(off0, |src|))
    {
      hide Slot, Bit, Good, DinodeIn, Writing, Bytes, WithInode, Journaled;
      var n := |src|;
      if off0 > ip.size || U32Add(off0, n) < off0 {
        return Ok(-1);
      }
      if U32Add(off0, n) > MAXFILE * BSIZE {
        return Ok(-1);
      }
      ghost var s0, i := View(ip), ip.inum;
      assert s0.tab == Table(sb, blk);
      FreeIsUnowned(s0, own);
      var w := WriteTurns(ip, src, off0);
      if w.Panic? {
        return Panic;
      }
      ghost var e, blk1 := ip.D(), blk;
      if old(Journaled()) { JournalSet(); }
      if n > 0 && off0 + n > ip.size {
        GrowFile(ip, src, off0, s0);
        Rewritten(sb, s0.tab[i], s0.blk, e, blk1, ip.D(), blk, off0, n);
      } else {
        WritingInside(s0, View(ip), own, i, off0, src);
        assert Table(sb, blk)[i := ip.D()] == Table(sb, blk);
      }
      FreeIsUnowned(Fs(sb, Table(sb, blk), blk), own);
      r := Ok(n);
    }

    /** readi returns exactly content[off..off + n], cut at the end of the file; it changes nothing,
        because below the size every block is already mapped. */
    method Readi(ip: Inode, off0: Word32, n0: Word32) returns (r: int, dst: seq<Byte>)
      requires Valid() && InSync(ip) && ip.typ != 0
      modifies this, ip`addrs
      ensures blk == old(blk) && ip.addrs == old(ip.addrs) && own == old(own) && logged == old(logged)
      ensures r == -1 <==> off0 > ip.size || off0 + n0 >= 0x1_0000_0000
      ensures r == -1 ==> dst == []
      ensures r >= 0 ==> r == |dst| && ip.size <= MAXFILE * BSIZE && off0 <= ip.size
      ensures r >= 0 ==> dst == Content(ip.D(), blk)[off0..if off0 + n0 <= ip.size then off0 + n0 else ip.size]
    {
      hide Slot, Bit, DinodeIn, Bytes, OwnOk, BitsOk, Grown, SameSlots, BmapLog, InodesOk, Mapped, Journaled;
      dst := [];
      if off0 > ip.size || U32Add(off0, n0) < off0 {
        return -1, [];
      }
      var n := if off0 + n0 > ip.size then ip.size - off0 else n0;
      ghost var s, i := View(ip), ip.inum;
      assert s.tab == Table(sb, blk);
      InodeAt(s, i);
      ghost var c := Content(ip.D(), blk);
      FullMeansAllOwned(s, own);
      var tot, off := 0, off0;
      while tot < n
        invariant 0 <= tot <= n && off == off0 + tot
        invariant blk == old(blk) && ip.addrs == old(ip.addrs) && own == old(own) && logged == old(logged)
        invariant dst == c[off0..off]
      {
        var m := Chunk(off, n - tot);
        MappedAt(ip.D(), blk, ip.size, off);
        var a := Bmap(ip, off / BSIZE);
        SlotInRange(s, own, i, DataSlot(off / BSIZE));
        var bp := blk[a.value];
        ReadChunk(ip.D(), blk, ip.size, off, m);
        SliceConcat(c, off0, off, off + m);
        dst := dst + bp[off % BSIZE..off % BSIZE + m];
        tot, off := tot + m, off + m;
      }
      r := n;
    }

    /** `bfree(ip->addrs[k]); ip->addrs[k] = 0` for a direct slot in use. */
    method FreeSlot(ip: Inode, k: nat)
      requires Formed() && ip.inum < sb.ninodes && k < TABLE && ip.addrs[k] != 0
      requires OwnOk(View(ip), own) && BitsOk(View(ip), own, {})
      modifies this, ip`addrs
      ensures Formed() && OnlyBitmap(sb, old(blk), blk)
      ensures OwnOk(View(ip), own) && BitsOk(View(ip), own, {})
      ensures ip.addrs == old(ip.addrs)[k := 0]
      ensures old(ip.addrs[k]) in old(own) && old(own)[old(ip.addrs[k])] == Owner(ip.inum, k)
      ensures own == old(own) - {old(ip.addrs[k])}
    {
      hide Slot, Bit, DinodeIn, OwnOk, BitsOk;
      ghost var s, o, i := View(ip), own, ip.inum;
      var a := ip.addrs[k];
      DetachSlot(s, o, i, k);
      ghost var t := s.(tab := s.tab[i := WithAddr(s.tab[i], k, 0)]);
      OwnedInRange(s, o, a);
      FreedBits(t, o - {a}, {a}, a);
      var f := Bfree(a);
      ip.addrs := ip.addrs[k := 0];
      own := own - {a};
      FreedKeepsTable(sb, s.blk, a);
      assert View(ip) == t.(blk := blk);
      assert {a} - {a} == {};
    }

    /** itrunc's first loop, for the direct blocks. */
    method FreeDirect(ip: Inode)
      requires Valid() && InSync(ip)
      modifies this, ip`addrs
      ensures Formed() && OnlyBitmap(sb, old(blk), blk)
      ensures OwnOk(View(ip), own) && BitsOk(View(ip), own, {}) && Shrunk(old(own), own, ip.inum)
      ensures forall k :: 0 <= k < TABLE ==> ip.addrs[k] == 0
      ensures ip.addrs[TABLE] == old(ip.addrs[TABLE])
    {
      hide Slot, Bit, DinodeIn, Bytes, OwnOk, BitsOk;
      ghost var i := ip.inum;
      assert Table(sb, blk)[i := ip.D()] == Table(sb, blk);
      var k := 0;
      while k < NDIRECT
        invariant 0 <= k <= NDIRECT
        invariant Formed() && OnlyBitmap(sb, old(blk), blk)
        invariant OwnOk(View(ip), own) && BitsOk(View(ip), own, {}) && Shrunk(old(own), own, i)
        invariant forall k' :: 0 <= k' < k ==> ip.addrs[k'] == 0
        invariant ip.addrs[TABLE] == old(ip.addrs[TABLE])
      {
        if ip.addrs[k] != 0 {
          FreeSlot(ip, k);
        }
        k := k + 1;
      }
    }

    /** bfree of a detached block: the bit is set, so there is no panic. */
    method FreeExtra(ghost t: Fs, ghost extra: set<nat>, b: nat)
      requires Formed() && t.sb == sb && b in extra
      requires OwnOk(t.(blk := blk), own) && BitsOk(t.(blk := blk), own, extra)
      modifies `blk, `logged, `writes
      ensures Formed() && OnlyBitmap(sb, old(blk), blk) && Table(sb, blk) == old(Table(sb, blk))
      ensures OwnOk(t.(blk := blk), own) && BitsOk(t.(blk := blk), own, extra - {b})
    {
      hide Slot, Bit, DinodeIn, OwnOk;
      FreedBits(t.(blk := blk), own, extra, b);
      FreedKeepsTable(sb, blk, b);
      var f := Bfree(b);
    }

    /** itrunc's second part: every block named in the indirect table, then the table. */
    method FreeIndirect(ip: Inode)
      requires Formed() && ip.inum < sb.ninodes && ip.addrs[TABLE] != 0
      requires OwnOk(View(ip), own) && BitsOk(View(ip), own, {})
      modifies this, ip`addrs
      ensures Formed() && OnlyBitmap(sb, old(blk), blk)
      ensures OwnOk(View(ip), own) && BitsOk(View(ip), own, {})
      ensures ip.addrs == old(ip.addrs)[TABLE := 0]
      ensures own == old(own) - Indirect(old(own), ip.inum, 0)
    {
      hide Slot, Bit, DinodeIn, OwnOk, BitsOk, Word, Indirect;
      ghost var s, o, i := View(ip), own, ip.inum;
      var a := ip.addrs[TABLE];
      TableInRange(s, o, i);
      DetachTable(s, o, i);
      ghost var t := s.(tab := s.tab[i := WithAddr(s.tab[i], TABLE, 0)]);
      own := o - Indirect(o, i, 0);
      var bp := blk[a];
      var j := 0;
      while j < NINDIRECT
        invariant 0 <= j <= NINDIRECT && Formed() && OnlyBitmap(sb, s.blk, blk)
        invariant own == o - Indirect(o, i, 0) && ip.addrs == old(ip.addrs)
        invariant Table(sb, blk) == Table(sb, s.blk)
        invariant OwnOk(t.(blk := blk), own) && BitsOk(t.(blk := blk), own, Indirect(o, i, j))
      {
        NextIndirect(s, o, i, j);
        var b := Word(bp, j);
        if b != 0 {
          FreeExtra(t, Indirect(o, i, j), b);
        }
        j := j + 1;
      }
      LastIndirect(s, o, i);
      FreeExtra(t, {a}, a);
      assert {a} - {a} == {};
      ip.addrs := ip.addrs[TABLE := 0];
      assert View(ip) == t.(blk := blk);
    }

    /** itrunc frees exactly the blocks the inode owned; bfree never panics on the way. */
    method Itrunc(ip: Inode) returns (r: Res<()>)
      requires Valid() && InSync(ip)
      modifies this, ip`addrs, ip`size
      ensures r.Ok? && Valid() && InSync(ip)
      ensures ip.D() == old(ip.D()).(size := 0, addrs := NoAddrs())
      ensures own == NotOf(old(own), ip.inum)
      ensures forall j :: 0 <= j < sb.ninodes && j != ip.inum ==>
        Table(sb, blk)[j] == old(Table(sb, blk)[j]) && Content(Table(sb, blk)[j], blk) == old(Content(Table(sb, blk)[j], blk))
    {
      hide Slot, Bit, DinodeIn, Bytes, OwnOk, BitsOk, InodesOk, WithInode;
      ghost var s0, own0, i := View(ip), own, ip.inum;
      assert s0.tab == Table(sb, blk);
      FreeDirect(ip);
      if ip.addrs[TABLE] != 0 {
        FreeIndirect(ip);
      }
      ghost var s1 := View(ip);
      ip.size := 0;
      assert ip.addrs == NoAddrs();
      TableFrame(sb, s0.blk, blk);
      ghost var s := View(ip);
      assert s.(tab := s.tab[i := s.tab[i].(size := s0.tab[i].size)]) == s1;
      SizeIrrelevant(s, own, i, s0.tab[i].size);
      Emptied(s0, own0, s, own, i);
      NothingLeft(s, own0, own, i);
      InodeWritten(s, own, i, ip.D());
      TableOfWithInode(sb, blk, i, ip.D());
      Iupdate(ip);
      r := Ok(());
    }

    /** Allocate the first free inode: it gets the type, and nothing else changes. */
    method Ialloc(typ: Half) returns (r: Res<nat>)
      requires Valid() && typ != 0
      modifies this
      ensures r.Panic? <==> forall j :: 1 <= j < sb.ninodes ==> old(Table(sb, blk))[j].typ != 0
      ensures r.Panic? ==> blk == old(blk)
      ensures r.Ok? ==> 1 <= r.value < sb.ninodes && old(Table(sb, blk))[r.value].typ == 0
      ensures r.Ok? ==> forall j :: 1 <= j < r.value ==> old(Table(sb, blk))[j].typ != 0
      ensures Valid() && own == old(own)
      ensures r.Ok? ==> Table(sb, blk) == old(Table(sb, blk))[r.value := Dinode(typ, 0, 0, 0, 0, NoAddrs())]
      ensures forall j :: 0 <= j < sb.ninodes ==>
        Table(sb, blk)[j].size <= MAXFILE * BSIZE && Content(Table(sb, blk)[j], blk) == old(Content(Table(sb, blk)[j], blk))
    {
      hide Slot, Bit, DinodeIn, Bytes, OwnOk, BitsOk, PutDinode;
      ghost var t := Table(sb, blk);
      var inum := 1;
      while inum < sb.ninodes
        invariant 1 <= inum && (inum <= sb.ninodes || inum == 1)
        invariant blk == old(blk) && own == old(own)
        invariant forall j :: 1 <= j < inum ==> t[j].typ != 0
      {
        var bp := blk[sb.IBlock(inum)];
        var dip := DinodeIn(bp, inum % IPB);
        assert dip == t[inum];
        if dip.typ == 0 {
          ghost var s := Fs(sb, t, blk);
          var d := Dinode(typ, 0, 0, 0, 0, NoAddrs());
          assert InodeOk(t[inum], blk);
          TypedGood(s, own, inum, d);
          GoodParts(s.(tab := t[inum := d]), own, {});
          InodeWritten(s.(tab := t[inum := d]), own, inum, d);
          TableOfWithInode(sb, blk, inum, d);
          LogWrite(sb.IBlock(inum), PutDinode(bp, inum % IPB, d));
          return Ok(inum);
        }
        inum := inum + 1;
      }
      return Panic;
    }

    /** The last reference to an unlinked inode: truncate, mark free, write back. */
    method Ifree(ip: Inode) returns (r: Res<()>)
      requires Valid() && InSync(ip)
      modifies this, ip
      ensures r.Ok? && Valid() && InSync(ip)
      ensures Table(sb, blk)[ip.inum].typ == 0 && own == NotOf(old(own), ip.inum)
      ensures forall j :: 0 <= j < sb.ninodes && j != ip.inum ==>
        Table(sb, blk)[j] == old(Table(sb, blk)[j]) && Content(Table(sb, blk)[j], blk) == old(Content(Table(sb, blk)[j], blk))
    {
      hide Slot, Bit, DinodeIn, Bytes, OwnOk, BitsOk, WithInode;
      ghost var i := ip.inum;
      r := Itrunc(ip);
      ghost var s := Fs(sb, Table(sb, blk), blk);
      ip.typ := 0;
      TypedGood(s, own, i, ip.D());
      GoodParts(s.(tab := s.tab[i := ip.D()]), own, {});
      InodeWritten(s.(tab := s.tab[i := ip.D()]), own, i, ip.D());
      TableOfWithInode(sb, blk, i, ip.D());
      Iupdate(ip);
    }
  }
}
