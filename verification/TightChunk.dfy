/** The log reservation of one operation is used up: a file system, an inode and an offset at
    which one full chunk of filewrite logs exactly MAXOPBLOCKS distinct blocks. */
module TightChunk {
  import opened Blocks
  import opened FsSpec
  import opened FsCount
  import opened FileSystem
  import opened FileWrite

  /** At least four bitmap blocks of disk, data from the first of them on, and an inode for every
      twelve data blocks. */
  predicate Suitable(sb: Super) {
    && sb.Ok()
    && sb.Meta() + 2 * NDIRECT <= BPB
    && 4 * BPB <= sb.size
    && (sb.size - sb.Meta()) / NDIRECT + 1 < sb.ninodes
  }

  lemma SuitableExists()
    ensures Suitable(Super(16384, 16184, 1400, 2, 178))
  {
  }

  /** Which inode slot each data block belongs to. */
  function OwnerOf(sb: Super, b: nat): (o: Owner)
    requires sb.Ok() && sb.Meta() <= b
  {
    Owner(1 + (b - sb.Meta()) / NDIRECT, (b - sb.Meta()) % NDIRECT)
  }

  /** The free blocks: for each of the first four bitmap blocks the last block it covers that
      belongs in an inode's last direct slot. */
  predicate Free(sb: Super, b: nat)
    requires sb.Ok()
  {
    sb.Meta() <= b < 4 * BPB && (b - sb.Meta()) % NDIRECT == NDIRECT - 1 && b / BPB < (b + NDIRECT) / BPB
  }

  /** The block that belongs in direct slot `k` of inode `i`. */
  function BlockOf(sb: Super, i: nat, k: nat): (b: nat)
    requires sb.Ok() && 1 <= i
  {
    sb.Meta() + NDIRECT * (i - 1) + k
  }

  function AddrOf(sb: Super, i: nat, k: nat): (a: Word32)
    requires sb.Ok()
  {
    if i == 0 || k >= NDIRECT || BlockOf(sb, i, k) >= sb.size || Free(sb, BlockOf(sb, i, k)) then 0
    else BlockOf(sb, i, k)
  }

  /** Inode 1 is a file that ends inside its last direct block; the others are files of full
      blocks that hold the blocks that are not to be free. */
  const SIZE: nat := 11 * BSIZE + 1

  /** How many direct slots of inode `i` are in use. */
  function Used(sb: Super, i: nat): (n: nat)
    requires sb.Ok() && 1 <= i
    ensures n <= NDIRECT
  {
    if BlockOf(sb, i, 0) >= sb.size then 0
    else if BlockOf(sb, i, NDIRECT - 1) >= sb.size then sb.size - BlockOf(sb, i, 0)
    else if Free(sb, BlockOf(sb, i, NDIRECT - 1)) then NDIRECT - 1
    else NDIRECT
  }

  function InodeOf(sb: Super, i: nat): (d: Dinode)
    requires sb.Ok()
  {
    if i == 0 then Dinode(0, 0, 0, 0, 0, NoAddrs())
    else Dinode(1, 0, 0, 1, if i == 1 then SIZE else BSIZE * Used(sb, i),
                seq(NDIRECT + 1, k requires 0 <= k => AddrOf(sb, i, k)))
  }

  function Inodes(sb: Super, n: nat): (blk: seq<Block>)
    requires sb.Ok() && n <= sb.ninodes
    ensures |blk| == sb.size
  {
    if n == 0 then seq(sb.size, i => ZeroBlock())
    else WithInode(sb, Inodes(sb, n - 1), n - 1, InodeOf(sb, n - 1))
  }

  function Bitmap(sb: Super, n: nat): (blk: seq<Block>)
    requires sb.Ok() && n <= sb.size
    ensures |blk| == sb.size
  {
    if n == 0 then Inodes(sb, sb.ninodes)
    else WithBit(sb, Bitmap(sb, n - 1), n - 1, !Free(sb, n - 1))
  }

  function Disk(sb: Super): (blk: seq<Block>)
    requires sb.Ok()
    ensures |blk| == sb.size
  {
    Bitmap(sb, sb.size)
  }

  ghost function Own(sb: Super): (own: map<nat, Owner>)
    requires sb.Ok()
  {
    map b | sb.Meta() <= b < sb.size && !Free(sb, b) :: OwnerOf(sb, b)
  }

  // ---- the disk holds those inodes and those bits ----

  lemma {:induction false} InodesStored(sb: Super, n: nat, i: nat)
    requires sb.Ok() && i < n <= sb.ninodes
    ensures Table(sb, Inodes(sb, n))[i] == InodeOf(sb, i)
  {
    hide InodeOf, DinodeIn, WithInode;
    TableOfWithInode(sb, Inodes(sb, n - 1), n - 1, InodeOf(sb, n - 1));
    if i < n - 1 { InodesStored(sb, n - 1, i); }
  }

  lemma {:induction false} BitmapKeepsTable(sb: Super, n: nat)
    requires sb.Ok() && n <= sb.size
    ensures Table(sb, Bitmap(sb, n)) == Table(sb, Inodes(sb, sb.ninodes))
  {
    hide DinodeIn, Inodes, PutBit, Free;
    if n > 0 {
      BitmapKeepsTable(sb, n - 1);
      assert sb.bmapstart <= sb.BBlock(n - 1) < sb.Meta();
      TableFrame(sb, Bitmap(sb, n - 1), Bitmap(sb, n));
    }
  }

  lemma {:induction false} BitsStored(sb: Super, n: nat, b: nat)
    requires sb.Ok() && b < n <= sb.size
    ensures BitAt(sb, Bitmap(sb, n), b) <==> !Free(sb, b)
  {
    hide BitAt, Free, WithBit, Inodes;
    BitOfWithBit(sb, Bitmap(sb, n - 1), n - 1, !Free(sb, n - 1), b);
    if b < n - 1 { BitsStored(sb, n - 1, b); }
  }

  lemma StoredTable(sb: Super, i: nat)
    requires sb.Ok() && i < sb.ninodes
    ensures Table(sb, Disk(sb))[i] == InodeOf(sb, i)
  {
    BitmapKeepsTable(sb, sb.size);
    InodesStored(sb, sb.ninodes, i);
  }

  // ---- it is a well-formed file system ----

  lemma SlotOf(sb: Super, blk: seq<Block>, i: nat, k: nat)
    requires sb.Ok() && k < NSLOTS
    ensures Slot(InodeOf(sb, i), blk, k) == if k < NDIRECT then AddrOf(sb, i, k) else 0
  {
  }

  lemma Divided(q: nat, k: nat)
    requires k < NDIRECT
    ensures (NDIRECT * q + k) / NDIRECT == q && (NDIRECT * q + k) % NDIRECT == k
  {
  }

  /** The two directions of the ownership map agree. */
  lemma OwnersAgree(sb: Super, i: nat, k: nat, b: nat)
    requires sb.Ok() && 1 <= i && k < NDIRECT && sb.Meta() <= b
    ensures OwnerOf(sb, b) == Owner(i, k) <==> b == BlockOf(sb, i, k)
  {
    var x := b - sb.Meta();
    assert x == NDIRECT * (x / NDIRECT) + x % NDIRECT;
    if b == BlockOf(sb, i, k) { Divided(i - 1, k); }
  }

  lemma BlockInRange(sb: Super, i: nat, k: nat)
    requires sb.Ok() && AddrOf(sb, i, k) != 0
    ensures 1 <= i && k < NDIRECT && sb.Meta() <= BlockOf(sb, i, k) < sb.size && !Free(sb, BlockOf(sb, i, k))
  {
  }

  lemma OwnerInRange(sb: Super, b: nat)
    requires Suitable(sb) && sb.Meta() <= b < sb.size
    ensures 1 <= OwnerOf(sb, b).inum < sb.ninodes && OwnerOf(sb, b).slot < NDIRECT
  {
    assert (b - sb.Meta()) / NDIRECT <= (sb.size - sb.Meta()) / NDIRECT;
  }

  lemma Owned(sb: Super)
    requires Suitable(sb)
    ensures OwnOk(Fs(sb, Table(sb, Disk(sb)), Disk(sb)), Own(sb))
  {
    hide Slot, Disk, DinodeIn, InodeOf, Free, OwnerOf, BlockOf;
    var s := Fs(sb, Table(sb, Disk(sb)), Disk(sb));
    forall i, k | 0 <= i < |s.tab| && 0 <= k < NSLOTS && Slot(s.tab[i], s.blk, k) != 0
      ensures Slot(s.tab[i], s.blk, k) in Own(sb) && Own(sb)[Slot(s.tab[i], s.blk, k)] == Owner(i, k)
    {
      StoredTable(sb, i);
      SlotOf(sb, s.blk, i, k);
      BlockInRange(sb, i, k);
      OwnersAgree(sb, i, k, BlockOf(sb, i, k));
    }
    forall b | b in Own(sb)
      ensures OwnerOk(s, Own(sb)[b]) && Slot(s.tab[Own(sb)[b].inum], s.blk, Own(sb)[b].slot) == b
      ensures 0 < sb.Meta() <= b < sb.size
    {
      var o := OwnerOf(sb, b);
      OwnerInRange(sb, b);
      StoredTable(sb, o.inum);
      SlotOf(sb, s.blk, o.inum, o.slot);
      OwnersAgree(sb, o.inum, o.slot, b);
    }
  }

  /** Metadata blocks are not among the free ones. */
  lemma MetaNotFree(sb: Super, b: nat)
    requires Suitable(sb) && b < sb.Meta() + NDIRECT
    ensures !Free(sb, b)
  {
  }

  lemma BitsRight(sb: Super)
    requires Suitable(sb)
    ensures BitsOk(Fs(sb, Table(sb, Disk(sb)), Disk(sb)), Own(sb), {})
  {
    hide Bitmap, DinodeIn, Free, OwnerOf, BitAt;
    forall b | 0 <= b < sb.size ensures BitAt(sb, Disk(sb), b) <==> b < sb.Meta() || b in Own(sb) {
      BitsStored(sb, sb.size, b);
      if b < sb.Meta() { MetaNotFree(sb, b); }
    }
  }

  lemma Direct(sb: Super, k: nat)
    requires Suitable(sb) && k < NDIRECT
    ensures AddrOf(sb, 1, k) == sb.Meta() + k
  {
    MetaNotFree(sb, sb.Meta() + k);
  }

  lemma UsedSlots(sb: Super, i: nat, k: nat)
    requires sb.Ok() && 1 <= i && k < NDIRECT
    ensures AddrOf(sb, i, k) != 0 <==> k < Used(sb, i)
  {
    var x := NDIRECT * (i - 1);
    assert BlockOf(sb, i, k) - sb.Meta() == x + k;
    Divided(i - 1, k);
  }

  /** Each inode's size reaches over exactly the blocks the inode has. */
  lemma SizeCovers(sb: Super, blk: seq<Block>, i: nat, k: nat)
    requires Suitable(sb) && k < NSLOTS
    ensures Slot(InodeOf(sb, i), blk, k) != 0 <==> k < BlocksFor(InodeOf(sb, i).size)
  {
    hide Slot, Free, Used;
    SlotOf(sb, blk, i, k);
    if i == 1 && k < NDIRECT {
      Direct(sb, k);
    } else if i > 1 && k < NDIRECT {
      UsedSlots(sb, i, k);
      assert BlocksFor(BSIZE * Used(sb, i)) == Used(sb, i);
    }
  }

  lemma OnlyDirect(sb: Super, i: nat)
    requires sb.Ok()
    ensures BlocksFor(InodeOf(sb, i).size) <= NDIRECT && InodeOf(sb, i).size <= NDIRECT * BSIZE
    ensures InodeOf(sb, i).typ == 0 ==> InodeOf(sb, i).size == 0 && InodeOf(sb, i).addrs == NoAddrs()
  {
  }

  lemma InodesRight(sb: Super)
    requires Suitable(sb)
    ensures InodesOk(Fs(sb, Table(sb, Disk(sb)), Disk(sb)))
  {
    hide Slot, Disk, DinodeIn, InodeOf;
    forall i | 0 <= i < sb.ninodes ensures InodeOk(Table(sb, Disk(sb))[i], Disk(sb)) {
      StoredTable(sb, i);
      OnlyDirect(sb, i);
      forall n | 0 <= n < BlocksFor(InodeOf(sb, i).size) ensures Slot(InodeOf(sb, i), Disk(sb), DataSlot(n)) != 0 {
        SizeCovers(sb, Disk(sb), i, n);
      }
    }
  }

  // ---- four blocks are free at least, and the chunk needs four ----

  /** The free block of bitmap block `j`. */
  function FreeAt(sb: Super, j: nat): (b: nat)
    requires Suitable(sb) && j < 4
    ensures Free(sb, b) && BPB * j <= b < BPB * (j + 1)
  {
    BPB * (j + 1) - 1 - (BPB * (j + 1) - sb.Meta()) % NDIRECT
  }

  lemma {:induction false} ClearGrows(sb: Super, blk: seq<Block>, m: nat, n: nat)
    requires sb.Ok() && |blk| == sb.size && m <= n <= sb.size
    ensures ClearBits(sb, blk, m) <= ClearBits(sb, blk, n)
  {
    if m < n { ClearGrows(sb, blk, m, n - 1); }
  }

  lemma {:induction false} FourClear(sb: Super, j: nat)
    requires Suitable(sb) && j <= 4
    ensures ClearBits(sb, Disk(sb), BPB * j) >= j
  {
    hide BitAt, Bitmap, Free;
    if j > 0 {
      var b := FreeAt(sb, j - 1);
      FourClear(sb, j - 1);
      ClearGrows(sb, Disk(sb), BPB * (j - 1), b);
      BitsStored(sb, sb.size, b);
      ClearGrows(sb, Disk(sb), b + 1, BPB * j);
    }
  }

  lemma NeedsFour(sb: Super, blk: seq<Block>)
    requires Suitable(sb)
    ensures NeedBytes(InodeOf(sb, 1), blk, SIZE, MAXCHUNK) == 4
    ensures LastBlock(SIZE, MAXCHUNK) == 15 && SIZE / BSIZE == 11
  {
    hide Slot, AddrOf;
    var d := InodeOf(sb, 1);
    Direct(sb, 11);
    SlotOf(sb, blk, 1, 11);
    SlotOf(sb, blk, 1, 13);
    SlotOf(sb, blk, 1, 14);
    SlotOf(sb, blk, 1, 15);
    assert d.addrs[TABLE] == 0 by { SlotOf(sb, blk, 1, 12); SlotIsAddr(d, blk, TABLE); }
    assert Missing(d, blk, 11, 12) == 0;
    assert Missing(d, blk, 11, 13) == 1;
    assert Missing(d, blk, 11, 14) == 2;
    assert Missing(d, blk, 11, 15) == 3;
  }

  // ---- it logs ten ----

  /** What the write leaves: other inodes and the file's direct blocks as they were, and the
      blocks after them mapped through a new table. */
  ghost predicate After(sb: Super, blk: seq<Block>, own: map<nat, Owner>, d: Dinode) {
    && sb.Ok() && 1 < sb.ninodes && |blk| == sb.size
    && Good(Fs(sb, Table(sb, blk), blk), own, {})
    && Table(sb, blk)[1] == d
    && (forall j :: 0 <= j < sb.ninodes && j != 1 ==> Table(sb, blk)[j] == InodeOf(sb, j))
    && (forall k :: 0 <= k < NDIRECT ==> Slot(d, blk, k) == AddrOf(sb, 1, k))
    && (forall k :: TABLE <= k <= TABLE + 3 ==> Slot(d, blk, k) != 0)
  }

  /** Every block the file gained was a free one. */
  lemma GainedWasFree(sb: Super, blk: seq<Block>, own: map<nat, Owner>, d: Dinode, k: nat)
    requires Suitable(sb) && After(sb, blk, own, d) && TABLE <= k < NSLOTS && Slot(d, blk, k) != 0
    ensures Free(sb, Slot(d, blk, k)) && sb.Meta() <= Slot(d, blk, k) < sb.size
  {
    hide Slot, DinodeIn, InodeOf, Free, OwnerOf, BlockOf, BitsOk, InodesOk, OwnOk;
    var s := Fs(sb, Table(sb, blk), blk);
    var a := Slot(d, blk, k);
    SlotInRange(s, own, 1, k);
    if !Free(sb, a) {
      var o := OwnerOf(sb, a);
      OwnerInRange(sb, a);
      OwnersAgree(sb, o.inum, o.slot, a);
      SlotOf(sb, blk, o.inum, o.slot);
      GoodParts(s, own, {});
      SlotsDistinct(s, own, 1, k, o.inum, o.slot);
    }
  }

  /** Two free blocks never share a bitmap block. */
  lemma FreeApart(sb: Super, a: nat, b: nat)
    requires sb.Ok() && Free(sb, a) && Free(sb, b) && a != b
    ensures sb.BBlock(a) != sb.BBlock(b)
  {
    assert a == BPB * (a / BPB) + a % BPB && b == BPB * (b / BPB) + b % BPB;
  }

  /** The blocks of the four turns: the old last block, and three new ones and the table with
      their bitmap blocks. */
  lemma TurnsOf(sb: Super, blk0: seq<Block>, d: Dinode, blk: seq<Block>)
    requires Suitable(sb)
    ensures var a, b, c, e, t := Slot(d, blk, 11), Slot(d, blk, 13), Slot(d, blk, 14), Slot(d, blk, 15), Slot(d, blk, TABLE);
            TurnSet(sb, InodeOf(sb, 1), blk0, d, blk, 11, 15)
            == {a, b, c, e, t, sb.BBlock(b), sb.BBlock(c), sb.BBlock(e), sb.BBlock(t)}
  {
    hide Slot, AddrOf;
    var d0 := InodeOf(sb, 1);
    Direct(sb, 11);
    SlotOf(sb, blk0, 1, 11);
    SlotOf(sb, blk0, 1, 13);
    SlotOf(sb, blk0, 1, 14);
    SlotOf(sb, blk0, 1, 15);
    SlotOf(sb, blk0, 1, 12);
    SlotIsAddr(d0, blk0, TABLE);
    SlotIsAddr(d, blk, TABLE);
    assert TurnSet(sb, d0, blk0, d, blk, 11, 12) == TurnLog(sb, d0, blk0, d, blk, 11);
    assert TurnSet(sb, d0, blk0, d, blk, 11, 13)
        == TurnLog(sb, d0, blk0, d, blk, 11) + TurnLog(sb, d0, blk0, d, blk, 12);
    assert TurnSet(sb, d0, blk0, d, blk, 11, 15)
        == TurnSet(sb, d0, blk0, d, blk, 11, 13) + TurnLog(sb, d0, blk0, d, blk, 13) + TurnLog(sb, d0, blk0, d, blk, 14);
  }

  lemma Apart(sb: Super, blk: seq<Block>, own: map<nat, Owner>, d: Dinode, k: nat, k': nat)
    requires Suitable(sb) && After(sb, blk, own, d) && TABLE <= k < k' <= TABLE + 3
    ensures Slot(d, blk, k) != Slot(d, blk, k') && sb.BBlock(Slot(d, blk, k)) != sb.BBlock(Slot(d, blk, k'))
  {
    hide Slot, DinodeIn, InodeOf, Free, OwnOk, BitsOk, InodesOk;
    GainedWasFree(sb, blk, own, d, k);
    GainedWasFree(sb, blk, own, d, k');
    GoodParts(Fs(sb, Table(sb, blk), blk), own, {});
    if Slot(d, blk, k) == Slot(d, blk, k') {
      SlotsDistinct(Fs(sb, Table(sb, blk), blk), own, 1, k, 1, k');
    }
    FreeApart(sb, Slot(d, blk, k), Slot(d, blk, k'));
  }

  lemma FourDistinct(p: nat, q: nat, r: nat, u: nat)
    requires p != q && p != r && p != u && q != r && q != u && r != u
    ensures |{p, q, r, u}| == 4
  {
  }

  lemma FiveDistinct(a: nat, b: nat, c: nat, e: nat, t: nat)
    requires a != b && a != c && a != e && a != t && b != c && b != e && b != t && c != e && c != t && e != t
    ensures |{a, b, c, e, t}| == 5
  {
    FourDistinct(a, b, c, e);
    assert {a, b, c, e, t} == {a, b, c, e} + {t};
  }

  /** Data blocks, bitmap blocks and inode blocks are apart. */
  lemma CardParts(xs: set<nat>, ys: set<nat>, zs: set<nat>, lo: nat, hi: nat)
    requires lo <= hi && (forall x :: x in xs ==> hi <= x) && (forall y :: y in ys ==> lo <= y < hi) && forall z :: z in zs ==> z < lo
    ensures |xs + ys + zs| == |xs| + |ys| + |zs|
  {
    assert xs !! ys && (xs + ys) !! zs;
  }

  lemma TenDistinct(a: nat, b: nat, c: nat, e: nat, t: nat, p: nat, q: nat, r: nat, u: nat, i: nat, lo: nat, hi: nat)
    requires a >= hi && b >= hi && c >= hi && e >= hi && t >= hi
    requires a != b && a != c && a != e && a != t && b != c && b != e && b != t && c != e && c != t && e != t
    requires lo <= p < hi && lo <= q < hi && lo <= r < hi && lo <= u < hi && i < lo
    requires p != q && p != r && p != u && q != r && q != u && r != u
    ensures |{a, b, c, e, t, p, q, r, u} + {i}| == 10
  {
    var xs, ys := {a, b, c, e, t}, {p, q, r, u};
    FiveDistinct(a, b, c, e, t);
    FourDistinct(p, q, r, u);
    CardParts(xs, ys, {i}, lo, hi);
    assert {a, b, c, e, t, p, q, r, u} + {i} == xs + ys + {i};
  }

  lemma FileSize(sb: Super)
    requires sb.Ok()
    ensures InodeOf(sb, 1).size == SIZE
  {
  }

  lemma LastDirect(sb: Super, blk: seq<Block>, own: map<nat, Owner>, d: Dinode)
    requires Suitable(sb) && After(sb, blk, own, d)
    ensures sb.Meta() <= Slot(d, blk, 11)
    ensures forall k :: TABLE <= k <= TABLE + 3 ==> Slot(d, blk, k) != Slot(d, blk, 11)
  {
    hide Slot, DinodeIn, InodeOf, Free, AddrOf, OwnOk, BitsOk, InodesOk;
    Direct(sb, 11);
    GoodParts(Fs(sb, Table(sb, blk), blk), own, {});
    forall k | TABLE <= k <= TABLE + 3 ensures Slot(d, blk, k) != Slot(d, blk, 11) {
      if Slot(d, blk, k) == Slot(d, blk, 11) {
        SlotsDistinct(Fs(sb, Table(sb, blk), blk), own, 1, k, 1, 11);
      }
    }
  }

  lemma GainedInRange(sb: Super, blk: seq<Block>, own: map<nat, Owner>, d: Dinode)
    requires Suitable(sb) && After(sb, blk, own, d)
    ensures forall k :: TABLE <= k <= TABLE + 3 ==>
              sb.Meta() <= Slot(d, blk, k) && sb.bmapstart <= sb.BBlock(Slot(d, blk, k)) < sb.Meta()
  {
    hide Slot, DinodeIn, InodeOf, Free, AddrOf;
    forall k | TABLE <= k <= TABLE + 3
      ensures sb.Meta() <= Slot(d, blk, k) && sb.bmapstart <= sb.BBlock(Slot(d, blk, k)) < sb.Meta()
    {
      GainedWasFree(sb, blk, own, d, k);
    }
  }

  lemma TenBlocks(sb: Super, blk0: seq<Block>, blk: seq<Block>, own: map<nat, Owner>, d: Dinode)
    requires Suitable(sb) && After(sb, blk, own, d)
    ensures |WriteSet(sb, 1, InodeOf(sb, 1), blk0, d, blk, SIZE, MAXCHUNK)| == MAXOPBLOCKS
  {
    hide Slot, DinodeIn, InodeOf, Free, After, TurnSet;
    TurnsOf(sb, blk0, d, blk);
    NeedsFour(sb, blk0);
    Apart(sb, blk, own, d, 12, 13);
    Apart(sb, blk, own, d, 12, 14);
    Apart(sb, blk, own, d, 12, 15);
    Apart(sb, blk, own, d, 13, 14);
    Apart(sb, blk, own, d, 13, 15);
    Apart(sb, blk, own, d, 14, 15);
    var s := Slot(d, blk, 11);
    LastDirect(sb, blk, own, d);
    GainedInRange(sb, blk, own, d);
    assert InodeOf(sb, 1).size == SIZE by { FileSize(sb); }
    TenDistinct(s, Slot(d, blk, 13), Slot(d, blk, 14), Slot(d, blk, 15), Slot(d, blk, 12),
                sb.BBlock(Slot(d, blk, 13)), sb.BBlock(Slot(d, blk, 14)), sb.BBlock(Slot(d, blk, 15)),
                sb.BBlock(Slot(d, blk, 12)), sb.IBlock(1), sb.bmapstart, sb.Meta());
  }

  lemma WellFormed(sb: Super)
    requires Suitable(sb)
    ensures Good(Fs(sb, Table(sb, Disk(sb)), Disk(sb)), Own(sb), {})
  {
    hide OwnOk, BitsOk, InodesOk;
    Owned(sb);
    BitsRight(sb);
    InodesRight(sb);
  }

  lemma WriteLeaves(sb: Super, blk0: seq<Block>, blk: seq<Block>, own: map<nat, Owner>, d: Dinode)
    requires Suitable(sb) && |blk| == sb.size && Good(Fs(sb, Table(sb, blk), blk), own, {})
    requires Table(sb, blk)[1] == d
    requires forall j :: 0 <= j < sb.ninodes && j != 1 ==> Table(sb, blk)[j] == InodeOf(sb, j)
    requires ExtendedBytes(InodeOf(sb, 1), blk0, d, blk, SIZE, MAXCHUNK)
    ensures After(sb, blk, own, d)
  {
    hide Slot, DinodeIn, InodeOf, AddrOf, Good;
    var d0 := InodeOf(sb, 1);
    forall k | 0 <= k < NDIRECT ensures Slot(d, blk, k) == AddrOf(sb, 1, k) {
      assert ExtendedAt(d0, blk0, d, blk, 11, 15, k);
      SlotOf(sb, blk0, 1, k);
      Direct(sb, k);
    }
    assert ExtendedAt(d0, blk0, d, blk, 11, 15, 12);
    assert ExtendedAt(d0, blk0, d, blk, 11, 15, 13);
    assert ExtendedAt(d0, blk0, d, blk, 11, 15, 14);
    SlotIsAddr(d, blk, TABLE);
  }

  /** The write is accepted and finds enough free blocks. */
  lemma Writable(sb: Super)
    requires Suitable(sb)
    ensures !WriteRefused(InodeOf(sb, 1).size, SIZE, MAXCHUNK)
    ensures FreeBlocks(sb, Disk(sb)) >= NeedBytes(InodeOf(sb, 1), Disk(sb), SIZE, MAXCHUNK)
    ensures InodeOf(sb, 1).typ != 0
  {
    hide Disk, ClearBits, NeedBytes;
    FourClear(sb, 4);
    ClearGrows(sb, Disk(sb), 4 * BPB, sb.size);
    NeedsFour(sb, Disk(sb));
  }

  /** On any such disk, one full chunk written at the end of the file logs exactly as many
      distinct blocks as begin_op reserved. */
  method FullChunk(sb: Super, src: seq<Byte>) returns (fs: FileSys, ip: Inode, r: Res<int>)
    requires Suitable(sb) && |src| == MAXCHUNK
    ensures fresh(fs) && fresh(ip) && fs.sb == sb && fs.Valid() && fs.InSync(ip)
    ensures r == Ok(MAXCHUNK) && |fs.logged| == MAXOPBLOCKS
  {
    hide Slot, DinodeIn, InodeOf, Disk, Good, Own, ExtendedBytes, NeedBytes, WriteSet, WriteRefused, FreeBlocks,
         Content, Overwrite, After;
    ghost var own := Own(sb);
    WellFormed(sb);
    var blk := Disk(sb);
    fs := new FileSys(sb, blk, own);
    StoredTable(sb, 1);
    Writable(sb);
    ip := new Inode(1, InodeOf(sb, 1));
    fs.BeginOp();
    r := fs.Writei(ip, src, SIZE);
    forall j | 0 <= j < sb.ninodes && j != 1 ensures Table(sb, fs.blk)[j] == InodeOf(sb, j) {
      StoredTable(sb, j);
    }
    WriteLeaves(sb, blk, fs.blk, fs.own, ip.D());
    TenBlocks(sb, blk, fs.blk, fs.own, ip.D());
  }
}
