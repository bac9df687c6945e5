/** The on-disk file system as a value: inodes, slots, block ownership, file contents, and
    what each kind of block update does to them. */
module FsSpec {
  import opened Blocks

  const NDIRECT := 12
  const NINDIRECT := 128
  const MAXFILE := NDIRECT + NINDIRECT
  const IPB := 8

  // ---- inodes on disk ----

  type Half = h: int | 0 <= h < 0x1_0000
  type Addrs = s: seq<Word32> | |s| == NDIRECT + 1 witness seq(NDIRECT + 1, i => 0)

  datatype Dinode = Dinode(typ: Half, major: Half, minor: Half, nlink: Half, size: Word32, addrs: Addrs)

  function NoAddrs(): (a: Addrs) {
    seq(NDIRECT + 1, i => 0)
  }

  /** The sixteen words of a disk inode. */
  function DinodeWords(d: Dinode): (ws: seq<Word32>)
    ensures |ws| == 16
  {
    [d.typ + 0x1_0000 * d.major, d.minor + 0x1_0000 * d.nlink, d.size] + d.addrs
  }

  function AddrsIn(b: Block, i: nat): (a: Addrs)
    requires i < IPB
  {
    WordsIn(b, 16 * i + 3, NDIRECT + 1)
  }

  function DinodeIn(b: Block, i: nat): (d: Dinode)
    requires i < IPB
  {
    var w0, w1 := Word(b, 16 * i), Word(b, 16 * i + 1);
    Dinode(w0 % 0x1_0000, w0 / 0x1_0000, w1 % 0x1_0000, w1 / 0x1_0000, Word(b, 16 * i + 2), AddrsIn(b, i))
  }

  function PutDinode(b: Block, i: nat, d: Dinode): (r: Block)
    requires i < IPB
  {
    PutWords(b, 16 * i, DinodeWords(d))
  }

  /** Storing inode `i` of a block and reading inode `j` back. */
  lemma DinodeOfPut(b: Block, i: nat, d: Dinode, j: nat)
    requires i < IPB && j < IPB
    ensures DinodeIn(PutDinode(b, i, d), j) == if i == j then d else DinodeIn(b, j)
  {
    hide Word, PutWords;
    var ws := DinodeWords(d);
    var c := PutDinode(b, i, d);
    WordOfPutWords(b, 16 * i, ws, 16 * j);
    WordOfPutWords(b, 16 * i, ws, 16 * j + 1);
    WordOfPutWords(b, 16 * i, ws, 16 * j + 2);
    forall k | 0 <= k <= NDIRECT
      ensures AddrsIn(c, j)[k] == if i == j then d.addrs[k] else AddrsIn(b, j)[k]
    {
      WordOfPutWords(b, 16 * i, ws, 16 * j + 3 + k);
    }
    assert AddrsIn(c, j) == if i == j then d.addrs else AddrsIn(b, j);
  }

  // ---- layout ----

  datatype Super = Super(size: nat, nblocks: nat, ninodes: nat, inodestart: nat, bmapstart: nat) {
    /** Boot block, super block, log, inode blocks and bitmap: everything below the data. */
    function Meta(): int { size - nblocks }
    function IBlock(i: nat): nat { inodestart + i / IPB }
    function BBlock(b: nat): nat { bmapstart + b / BPB }
    predicate Ok() {
      && 0 < inodestart
      && inodestart + ninodes / IPB < bmapstart
      && bmapstart + size / BPB < Meta()
      && Meta() <= size <= 0x1_0000_0000
    }
  }

  /** A file system: superblock, inode table, blocks. While an inode is held in memory and ahead
      of its disk copy, `tab` holds the in-memory one. */
  datatype Fs = Fs(sb: Super, tab: seq<Dinode>, blk: seq<Block>) {
    predicate Shape() { sb.Ok() && |blk| == sb.size && |tab| == sb.ninodes }
  }

  /** The inode table as stored in the inode blocks. */
  function Table(sb: Super, blk: seq<Block>): (t: seq<Dinode>)
    requires sb.Ok() && |blk| == sb.size
    ensures |t| == sb.ninodes
  {
    seq(sb.ninodes, i requires 0 <= i < sb.ninodes => DinodeIn(blk[sb.IBlock(i)], i % IPB))
  }

  predicate BitAt(sb: Super, blk: seq<Block>, b: nat)
    requires sb.Ok() && |blk| == sb.size && b < sb.size
  {
    Bit(blk[sb.BBlock(b)], b % BPB)
  }

  // ---- slots ----

  /** An inode's block slots: direct 0..11, the indirect table 12, indirect entries 13..140. */
  const NSLOTS := NDIRECT + 1 + NINDIRECT
  const TABLE := NDIRECT

  function Slot(d: Dinode, blk: seq<Block>, k: nat): (a: nat)
    requires k < NSLOTS
  {
    if k <= TABLE then d.addrs[k]
    else if 0 < d.addrs[TABLE] < |blk| then Word(blk[d.addrs[TABLE]], k - TABLE - 1)
    else 0
  }

  /** The slot that holds file block `n`. */
  function DataSlot(n: nat): (k: nat)
    requires n < MAXFILE
    ensures k < NSLOTS && k != TABLE
  {
    if n < NDIRECT then n else n + 1
  }

  datatype Owner = Owner(inum: nat, slot: nat)

  predicate OwnerOk(s: Fs, o: Owner) {
    o.inum < |s.tab| && o.slot < NSLOTS
  }

  /** `own` maps each block in use for data to the one inode slot that points to it. */
  ghost predicate OwnOk(s: Fs, own: map<nat, Owner>) {
    && s.Shape()
    && (forall i, k :: 0 <= i < |s.tab| && 0 <= k < NSLOTS && Slot(s.tab[i], s.blk, k) != 0 ==>
          Slot(s.tab[i], s.blk, k) in own && own[Slot(s.tab[i], s.blk, k)] == Owner(i, k))
    && (forall b :: b in own ==>
          OwnerOk(s, own[b]) && Slot(s.tab[own[b].inum], s.blk, own[b].slot) == b
          && 0 < s.sb.Meta() <= b < s.sb.size)
  }

  /** A bitmap bit is set exactly for metadata, owned blocks, and blocks in `extra`, which are
      those an operation in progress has allocated but not yet attached (or detached but not yet
      freed). */
  ghost predicate BitsOk(s: Fs, own: map<nat, Owner>, extra: set<nat>) {
    && s.Shape()
    && (forall b :: 0 <= b < s.sb.size ==>
         (BitAt(s.sb, s.blk, b) <==> b < s.sb.Meta() || b in own || b in extra))
    && (forall b :: b in extra ==> b !in own && s.sb.Meta() <= b < s.sb.size)
  }

  function BlocksFor(size: nat): (n: nat) { (size + BSIZE - 1) / BSIZE }

  /** Every file block below `n` bytes is mapped. */
  predicate Mapped(d: Dinode, blk: seq<Block>, size: nat)
    requires size <= MAXFILE * BSIZE
  {
    forall n :: 0 <= n < BlocksFor(size) ==> Slot(d, blk, DataSlot(n)) != 0
  }

  predicate InodeOk(d: Dinode, blk: seq<Block>) {
    && d.size <= MAXFILE * BSIZE
    && Mapped(d, blk, d.size)
    && (d.typ == 0 ==> d.size == 0 && d.addrs == NoAddrs())
  }

  predicate InodesOk(s: Fs) {
    forall i :: 0 <= i < |s.tab| ==> InodeOk(s.tab[i], s.blk)
  }

  ghost predicate Good(s: Fs, own: map<nat, Owner>, extra: set<nat>) {
    OwnOk(s, own) && BitsOk(s, own, extra) && InodesOk(s)
  }

  // ---- contents ----

  function ByteAt(d: Dinode, blk: seq<Block>, j: nat): (b: Byte)
    requires j < MAXFILE * BSIZE
  {
    var a := Slot(d, blk, DataSlot(j / BSIZE));
    if 0 < a < |blk| then blk[a][j % BSIZE] else 0
  }

  function Bytes(d: Dinode, blk: seq<Block>, n: nat): (s: seq<Byte>)
    requires n <= MAXFILE * BSIZE
    ensures |s| == n
  {
    seq(n, j requires 0 <= j < n => ByteAt(d, blk, j))
  }

  /** The file: what readers of inode `d` see. */
  function Content(d: Dinode, blk: seq<Block>): (s: seq<Byte>)
    requires d.size <= MAXFILE * BSIZE
    ensures |s| == d.size
  {
    Bytes(d, blk, d.size)
  }

  // ---- what ownership means ----

  /** No block is reachable through two slots. */
  lemma SlotsDistinct(s: Fs, own: map<nat, Owner>, i: nat, k: nat, i': nat, k': nat)
    requires OwnOk(s, own)
    requires i < |s.tab| && k < NSLOTS && i' < |s.tab| && k' < NSLOTS
    requires Slot(s.tab[i], s.blk, k) == Slot(s.tab[i'], s.blk, k') != 0
    ensures i == i' && k == k'
  {
    hide Word;
    assert own[Slot(s.tab[i], s.blk, k)] == Owner(i, k);
    assert own[Slot(s.tab[i'], s.blk, k')] == Owner(i', k');
  }

  /** Between operations a bitmap bit is set exactly when its block is metadata or is in
      exactly one inode slot. */
  lemma BitmapMeansOwned(s: Fs, own: map<nat, Owner>, b: nat)
    requires OwnOk(s, own) && BitsOk(s, own, {}) && b < s.sb.size
    ensures BitAt(s.sb, s.blk, b) <==>
              b < s.sb.Meta() || exists o :: OwnerOk(s, o) && Slot(s.tab[o.inum], s.blk, o.slot) == b
  {
    hide Word, Bit;
    if b in own {
      assert OwnerOk(s, own[b]);
    }
    forall o | OwnerOk(s, o) && Slot(s.tab[o.inum], s.blk, o.slot) == b
      ensures b < s.sb.Meta() || b in own
    {
    }
  }

  // ---- frames ----

  /** Ownership depends only on the inode table and the indirect tables. */
  lemma OwnFrame(s: Fs, own: map<nat, Owner>, blk: seq<Block>)
    requires OwnOk(s, own) && |blk| == |s.blk|
    requires forall b :: b in own && own[b].slot == TABLE ==> blk[b] == s.blk[b]
    ensures forall i, k :: 0 <= i < |s.tab| && 0 <= k < NSLOTS ==>
              Slot(s.tab[i], blk, k) == Slot(s.tab[i], s.blk, k)
    ensures OwnOk(s.(blk := blk), own)
  {
    hide Word;
    forall i, k | 0 <= i < |s.tab| && 0 <= k < NSLOTS
      ensures Slot(s.tab[i], blk, k) == Slot(s.tab[i], s.blk, k)
    {
      var t := s.tab[i].addrs[TABLE];
      assert t == Slot(s.tab[i], s.blk, TABLE);
      if t != 0 {
        assert own[t] == Owner(i, TABLE);
      }
    }
  }

  /** A file's bytes depend only on the blocks it owns. */
  lemma BytesFrame(s: Fs, own: map<nat, Owner>, blk: seq<Block>, i: nat, n: nat)
    requires OwnOk(s, own) && |blk| == |s.blk| && i < |s.tab| && n <= MAXFILE * BSIZE
    requires forall b :: b in own && own[b].inum == i ==> blk[b] == s.blk[b]
    ensures Bytes(s.tab[i], blk, n) == Bytes(s.tab[i], s.blk, n)
    ensures forall k :: 0 <= k < NSLOTS ==> Slot(s.tab[i], blk, k) == Slot(s.tab[i], s.blk, k)
  {
    hide Word;
    var d := s.tab[i];
    var t := d.addrs[TABLE];
    assert t == Slot(d, s.blk, TABLE);
    assert t != 0 ==> own[t] == Owner(i, TABLE);
    forall j | 0 <= j < n ensures ByteAt(d, blk, j) == ByteAt(d, s.blk, j) {
      var k := DataSlot(j / BSIZE);
      var a := Slot(d, s.blk, k);
      assert Slot(d, blk, k) == a;
      if a != 0 { assert own[a] == Owner(i, k); }
    }
  }

  lemma TableFrame(sb: Super, blk: seq<Block>, blk': seq<Block>)
    requires sb.Ok() && |blk| == |blk'| == sb.size
    requires forall b :: sb.inodestart <= b < sb.bmapstart ==> blk'[b] == blk[b]
    ensures Table(sb, blk') == Table(sb, blk)
  {
    hide DinodeIn;
    forall i | 0 <= i < sb.ninodes ensures blk'[sb.IBlock(i)] == blk[sb.IBlock(i)] {
      assert sb.inodestart <= sb.IBlock(i) < sb.bmapstart;
    }
  }

  lemma BitsFrame(sb: Super, blk: seq<Block>, blk': seq<Block>, b: nat)
    requires sb.Ok() && |blk| == |blk'| == sb.size && b < sb.size
    requires forall c :: sb.bmapstart <= c < sb.Meta() ==> blk'[c] == blk[c]
    ensures BitAt(sb, blk', b) == BitAt(sb, blk, b)
  {
    hide Bit;
    assert sb.bmapstart <= sb.BBlock(b) < sb.Meta();
  }

  // ---- the bitmap ----

  function WithBit(sb: Super, blk: seq<Block>, b: nat, v: bool): (r: seq<Block>)
    requires sb.Ok() && |blk| == sb.size && b < sb.size
    ensures |r| == |blk|
  {
    blk[sb.BBlock(b) := PutBit(blk[sb.BBlock(b)], b % BPB, v)]
  }

  /** Changing one bit of the bitmap changes that bit only. */
  lemma BitOfWithBit(sb: Super, blk: seq<Block>, b: nat, v: bool, c: nat)
    requires sb.Ok() && |blk| == sb.size && b < sb.size && c < sb.size
    ensures BitAt(sb, WithBit(sb, blk, b, v), c) == if c == b then v else BitAt(sb, blk, c)
  {
    hide Bit, PutBit;
    if sb.BBlock(b) == sb.BBlock(c) {
      BitOfPutBit(blk[sb.BBlock(b)], b % BPB, v, c % BPB);
      assert b == BPB * (b / BPB) + b % BPB && c == BPB * (c / BPB) + c % BPB;
    }
  }

  /** balloc's effect: the bit set, the block zeroed. */
  function Allocated(sb: Super, blk: seq<Block>, b: nat): (r: seq<Block>)
    requires sb.Ok() && |blk| == sb.size && b < sb.size
    ensures |r| == |blk|
  {
    WithBit(sb, blk, b, true)[b := ZeroBlock()]
  }

  /** Writing blocks that nobody owns and that hold no inodes leaves files and inodes alone. */
  lemma UnownedFrame(s: Fs, own: map<nat, Owner>, blk: seq<Block>)
    requires OwnOk(s, own) && InodesOk(s) && |blk| == |s.blk|
    requires forall b :: b in own ==> blk[b] == s.blk[b]
    ensures OwnOk(s.(blk := blk), own) && InodesOk(s.(blk := blk))
    ensures forall i :: 0 <= i < |s.tab| ==> Content(s.tab[i], blk) == Content(s.tab[i], s.blk)
  {
    hide Word, Bytes;
    OwnFrame(s, own, blk);
    forall i | 0 <= i < |s.tab|
      ensures InodeOk(s.tab[i], blk) && Content(s.tab[i], blk) == Content(s.tab[i], s.blk)
    {
      assert InodeOk(s.tab[i], s.blk);
      BytesFrame(s, own, blk, i, s.tab[i].size);
    }
  }

  lemma AllocatedBits(s: Fs, own: map<nat, Owner>, b: nat)
    requires BitsOk(s, own, {}) && s.sb.Meta() <= b < s.sb.size && b !in own
    ensures BitsOk(s.(blk := Allocated(s.sb, s.blk, b)), own, {b})
  {
    hide Bit, PutBit;
    var blk := Allocated(s.sb, s.blk, b);
    forall c | 0 <= c < s.sb.size
      ensures BitAt(s.sb, blk, c) <==> c < s.sb.Meta() || c in own || c in {b}
    {
      BitOfWithBit(s.sb, s.blk, b, true, c);
      BitsFrame(s.sb, WithBit(s.sb, s.blk, b, true), blk, c);
    }
  }

  /** balloc hands out a block that no inode owned. */
  lemma AllocatedGood(s: Fs, own: map<nat, Owner>, b: nat)
    requires Good(s, own, {}) && s.sb.Meta() <= b < s.sb.size && !BitAt(s.sb, s.blk, b)
    ensures b !in own
    ensures Good(s.(blk := Allocated(s.sb, s.blk, b)), own, {b})
    ensures forall c :: c in own ==> Allocated(s.sb, s.blk, b)[c] == s.blk[c]
    ensures forall i :: 0 <= i < |s.tab| ==>
              Content(s.tab[i], Allocated(s.sb, s.blk, b)) == Content(s.tab[i], s.blk)
  {
    hide Word, Bit, PutBit, Content, InodeOk, Slot;
    var blk := Allocated(s.sb, s.blk, b);
    assert b !in own;
    forall c | c in own ensures blk[c] == s.blk[c] { }
    UnownedFrame(s, own, blk);
    AllocatedBits(s, own, b);
  }

  /** bfree's effect; its panic needs a clear bit, which an allocated block never has. */
  lemma FreedBits(s: Fs, own: map<nat, Owner>, extra: set<nat>, b: nat)
    requires OwnOk(s, own) && BitsOk(s, own, extra) && b in extra
    ensures BitAt(s.sb, s.blk, b)
    ensures OwnOk(s.(blk := WithBit(s.sb, s.blk, b, false)), own)
    ensures BitsOk(s.(blk := WithBit(s.sb, s.blk, b, false)), own, extra - {b})
  {
    hide Word, Bit, PutBit, Slot;
    var blk := WithBit(s.sb, s.blk, b, false);
    OwnFrame(s, own, blk);
    forall c | 0 <= c < s.sb.size
      ensures BitAt(s.sb, blk, c) <==> c < s.sb.Meta() || c in own || c in extra - {b}
    {
      BitOfWithBit(s.sb, s.blk, b, false, c);
    }
  }

  // ---- attaching blocks to inodes ----

  function WithAddr(d: Dinode, k: nat, b: Word32): (r: Dinode)
    requires k <= TABLE
  {
    d.(addrs := d.addrs[k := b])
  }

  /** Storing a fresh block in a direct slot, or a fresh zeroed block as the indirect table. */
  lemma AttachSlots(s: Fs, i: nat, k: nat, b: nat)
    requires s.Shape() && i < |s.tab| && k <= TABLE && 0 < b < s.sb.size
    requires s.tab[i].addrs[k] == 0
    requires k == TABLE ==> s.blk[b] == ZeroBlock()
    ensures forall k' :: 0 <= k' < NSLOTS ==>
              Slot(WithAddr(s.tab[i], k, b), s.blk, k') == if k' == k then b else Slot(s.tab[i], s.blk, k')
  {
    hide Word;
    forall k' | 0 <= k' < NSLOTS
      ensures Slot(WithAddr(s.tab[i], k, b), s.blk, k') == if k' == k then b else Slot(s.tab[i], s.blk, k')
    {
      if k == TABLE && k' > TABLE { ZeroWord(k' - TABLE - 1); }
    }
  }

  lemma SlotIsAddr(d: Dinode, blk: seq<Block>, k: nat)
    requires k <= TABLE
    ensures Slot(d, blk, k) == d.addrs[k]
  {
  }

  lemma AttachOwn(s: Fs, own: map<nat, Owner>, i: nat, k: nat, b: nat)
    requires OwnOk(s, own) && BitsOk(s, own, {b})
    requires i < |s.tab| && k <= TABLE && s.tab[i].addrs[k] == 0
    requires k == TABLE ==> s.blk[b] == ZeroBlock()
    ensures var t := s.(tab := s.tab[i := WithAddr(s.tab[i], k, b)]);
            OwnOk(t, own[b := Owner(i, k)]) && BitsOk(t, own[b := Owner(i, k)], {})
  {
    hide Slot, Bit;
    AttachSlots(s, i, k, b);
    SlotIsAddr(s.tab[i], s.blk, k);
  }

  lemma SlotIsEntry(d: Dinode, blk: seq<Block>, j: nat)
    requires j < NINDIRECT && 0 < d.addrs[TABLE] < |blk|
    ensures Slot(d, blk, TABLE + 1 + j) == Word(blk[d.addrs[TABLE]], j)
  {
  }

  /** Entry `j` of inode `i`'s indirect table set to `b`. */
  function WithEntry(s: Fs, i: nat, j: nat, b: Word32): (r: seq<Block>)
    requires s.Shape() && i < |s.tab| && 0 < s.tab[i].addrs[TABLE] < |s.blk| && j < NINDIRECT
    ensures |r| == |s.blk|
  {
    var t := s.tab[i].addrs[TABLE];
    s.blk[t := PutWord(s.blk[t], j, b)]
  }

  lemma EntrySlots(s: Fs, own: map<nat, Owner>, i: nat, j: nat, b: Word32, i': nat, k: nat)
    requires OwnOk(s, own) && i < |s.tab| && s.tab[i].addrs[TABLE] != 0 && j < NINDIRECT
    requires 0 < s.tab[i].addrs[TABLE] < |s.blk| && i' < |s.tab| && k < NSLOTS
    ensures Slot(s.tab[i'], WithEntry(s, i, j, b), k)
         == if i' == i && k == TABLE + 1 + j then b else Slot(s.tab[i'], s.blk, k)
  {
    hide Word, PutWord;
    var t, t' := s.tab[i].addrs[TABLE], s.tab[i'].addrs[TABLE];
    SlotIsAddr(s.tab[i], s.blk, TABLE);
    SlotIsAddr(s.tab[i'], s.blk, TABLE);
    if k > TABLE {
      if i' == i {
        WordOfPutWord(s.blk[t], j, b, k - TABLE - 1);
      } else if t' == t {
        SlotsDistinct(s, own, i, TABLE, i', TABLE);
      }
    }
  }

  lemma AttachEntryOwn(s: Fs, own: map<nat, Owner>, i: nat, j: nat, b: nat)
    requires OwnOk(s, own) && BitsOk(s, own, {b})
    requires i < |s.tab| && j < NINDIRECT && 0 < s.tab[i].addrs[TABLE] < |s.blk|
    requires Slot(s.tab[i], s.blk, TABLE + 1 + j) == 0
    ensures var t := s.(blk := WithEntry(s, i, j, b));
            OwnOk(t, own[b := Owner(i, TABLE + 1 + j)]) && BitsOk(t, own[b := Owner(i, TABLE + 1 + j)], {})
  {
    hide Slot, Bit, PutWord;
    var blk := WithEntry(s, i, j, b);
    SlotIsAddr(s.tab[i], s.blk, TABLE);
    forall i', k | 0 <= i' < |s.tab| && 0 <= k < NSLOTS
      ensures Slot(s.tab[i'], blk, k) == if i' == i && k == TABLE + 1 + j then b else Slot(s.tab[i'], s.blk, k)
    {
      EntrySlots(s, own, i, j, b, i', k);
    }
    forall c | 0 <= c < s.sb.size ensures BitAt(s.sb, blk, c) == BitAt(s.sb, s.blk, c) {
      BitsFrame(s.sb, s.blk, blk, c);
    }
  }

  // ---- growing one inode ----

  /** From `s` to `t` inode `i` gained blocks and nothing else: no slot lost or moved, no owned
      block changed except entries added to `i`'s own indirect table, no inode block written. */
  ghost predicate Grown(s: Fs, own: map<nat, Owner>, t: Fs, own': map<nat, Owner>, i: nat) {
    && s.Shape() && t.Shape() && t.sb == s.sb && i < |s.tab|
    && t.tab[i] == s.tab[i].(addrs := t.tab[i].addrs)
    && t.tab == s.tab[i := t.tab[i]]
    && (forall k :: 0 <= k < NSLOTS && Slot(s.tab[i], s.blk, k) != 0 ==>
          Slot(t.tab[i], t.blk, k) == Slot(s.tab[i], s.blk, k))
    && (forall b :: b in own ==> b in own' && own'[b] == own[b])
    && (forall b :: b in own && b < |s.blk| && own[b] != Owner(i, TABLE) ==> t.blk[b] == s.blk[b])
    && (forall b :: s.sb.inodestart <= b < s.sb.bmapstart ==> t.blk[b] == s.blk[b])
  }

  lemma GrownTrans(s: Fs, o: map<nat, Owner>, t: Fs, o': map<nat, Owner>, u: Fs, o'': map<nat, Owner>, i: nat)
    requires Grown(s, o, t, o', i) && Grown(t, o', u, o'', i)
    ensures Grown(s, o, u, o'', i)
  {
    hide Slot;
  }

  lemma GrownBytes(s: Fs, own: map<nat, Owner>, t: Fs, own': map<nat, Owner>, i: nat, n: nat)
    requires OwnOk(s, own) && Grown(s, own, t, own', i)
    requires n <= MAXFILE * BSIZE && Mapped(s.tab[i], s.blk, n)
    ensures Mapped(t.tab[i], t.blk, n) && Bytes(t.tab[i], t.blk, n) == Bytes(s.tab[i], s.blk, n)
  {
    hide Slot;
    forall j | 0 <= j < n ensures ByteAt(t.tab[i], t.blk, j) == ByteAt(s.tab[i], s.blk, j) {
      var k := DataSlot(j / BSIZE);
      assert j / BSIZE < BlocksFor(n);
      assert Slot(s.tab[i], s.blk, k) != 0;
      assert own[Slot(s.tab[i], s.blk, k)] == Owner(i, k);
    }
  }

  /** Growing a live inode keeps every other file, and keeps the grown file wherever it was mapped. */
  lemma GrownContents(s: Fs, own: map<nat, Owner>, t: Fs, own': map<nat, Owner>, i: nat, n: nat)
    requires Good(s, own, {}) && OwnOk(t, own') && Grown(s, own, t, own', i)
    requires n <= MAXFILE * BSIZE && Mapped(s.tab[i], s.blk, n) && s.tab[i].typ != 0
    ensures Mapped(t.tab[i], t.blk, n) && Bytes(t.tab[i], t.blk, n) == Bytes(s.tab[i], s.blk, n)
    ensures InodesOk(t)
    ensures forall j :: 0 <= j < |s.tab| && j != i ==> Content(t.tab[j], t.blk) == Content(s.tab[j], s.blk)
  {
    hide Word;
    GrownBytes(s, own, t, own', i, n);
    GrownBytes(s, own, t, own', i, s.tab[i].size);
    forall j | 0 <= j < |s.tab| && j != i
      ensures InodeOk(t.tab[j], t.blk) && Content(t.tab[j], t.blk) == Content(s.tab[j], s.blk)
    {
      assert InodeOk(s.tab[j], s.blk);
      BytesFrame(s, own, t.blk, j, s.tab[j].size);
    }
  }

  lemma GoodParts(s: Fs, own: map<nat, Owner>, extra: set<nat>)
    requires Good(s, own, extra)
    ensures s.Shape() && OwnOk(s, own) && BitsOk(s, own, extra) && InodesOk(s)
    ensures forall b :: b in own ==> s.sb.Meta() <= b < s.sb.size
  {
  }

  lemma OwnSlots(s: Fs, own: map<nat, Owner>, blk: seq<Block>, i: nat)
    requires OwnOk(s, own) && |blk| == |s.blk| && i < |s.tab|
    requires forall b :: b in own ==> blk[b] == s.blk[b]
    ensures forall k :: 0 <= k < NSLOTS ==> Slot(s.tab[i], blk, k) == Slot(s.tab[i], s.blk, k)
  {
    OwnFrame(s, own, blk);
  }

  lemma GrownGood(s: Fs, own: map<nat, Owner>, t: Fs, own': map<nat, Owner>, i: nat)
    requires Good(s, own, {}) && Grown(s, own, t, own', i) && s.tab[i].typ != 0
    requires OwnOk(t, own') && BitsOk(t, own', {})
    ensures Good(t, own', {})
  {
    hide Word, Slot, Bit, Bytes;
    assert InodeOk(s.tab[i], s.blk);
    GrownContents(s, own, t, own', i, s.tab[i].size);
  }

  /** balloc then `ip->addrs[k] = b`. */
  lemma AllocAttach(s: Fs, own: map<nat, Owner>, i: nat, k: nat, b: nat)
    requires Good(s, own, {}) && s.sb.Meta() <= b < s.sb.size && !BitAt(s.sb, s.blk, b)
    requires i < |s.tab| && k <= TABLE && s.tab[i].addrs[k] == 0 && s.tab[i].typ != 0
    ensures b !in own
    ensures var t := Fs(s.sb, s.tab[i := WithAddr(s.tab[i], k, b)], Allocated(s.sb, s.blk, b));
            var own' := own[b := Owner(i, k)];
            && Good(t, own', {}) && Grown(s, own, t, own', i)
            && Slot(t.tab[i], t.blk, k) == b
            && (forall k' :: 0 <= k' < NSLOTS && k' != k ==> Slot(t.tab[i], t.blk, k') == Slot(s.tab[i], s.blk, k'))
  {
    hide Bit, PutBit, Good, BitsOk, OwnOk, InodesOk, Slot;
    GoodParts(s, own, {});
    var blk := Allocated(s.sb, s.blk, b);
    var m := s.(blk := blk);
    AllocatedGood(s, own, b);
    GoodParts(m, own, {b});
    AttachOwn(m, own, i, k, b);
    OwnSlots(s, own, blk, i);
    AttachSlots(m, i, k, b);
    SlotIsAddr(s.tab[i], s.blk, k);
    var t := Fs(s.sb, s.tab[i := WithAddr(s.tab[i], k, b)], blk);
    var own' := own[b := Owner(i, k)];
    assert Grown(s, own, t, own', i);
    GrownGood(s, own, t, own', i);
  }

  lemma EmptyTable(d: Dinode, blk: seq<Block>)
    requires d.addrs[TABLE] == 0
    ensures forall k :: TABLE < k < NSLOTS ==> Slot(d, blk, k) == 0
  {
  }

  lemma TableOwned(s: Fs, own: map<nat, Owner>, i: nat)
    requires OwnOk(s, own) && i < |s.tab| && s.tab[i].addrs[TABLE] != 0
    ensures s.tab[i].addrs[TABLE] in own && own[s.tab[i].addrs[TABLE]] == Owner(i, TABLE)
    ensures forall b :: b in own && own[b] == Owner(i, TABLE) ==> b == s.tab[i].addrs[TABLE]
  {
    SlotIsAddr(s.tab[i], s.blk, TABLE);
  }

  lemma TableIsData(s: Fs, own: map<nat, Owner>, i: nat)
    requires OwnOk(s, own) && i < |s.tab| && s.tab[i].addrs[TABLE] != 0
    ensures s.sb.Meta() <= s.tab[i].addrs[TABLE] < s.sb.size
  {
    SlotIsAddr(s.tab[i], s.blk, TABLE);
  }

  lemma EntryGrown(s: Fs, own: map<nat, Owner>, i: nat, j: nat, b: nat)
    requires s.Shape() && OwnOk(s, own) && s.sb.Meta() <= b < s.sb.size && b !in own
    requires i < |s.tab| && j < NINDIRECT && 0 < s.tab[i].addrs[TABLE] < |s.blk|
    requires forall c :: c in own ==> Allocated(s.sb, s.blk, b)[c] == s.blk[c]
    requires var m := s.(blk := Allocated(s.sb, s.blk, b));
             forall k :: 0 <= k < NSLOTS ==>
               Slot(s.tab[i], WithEntry(m, i, j, b), k) == if k == TABLE + 1 + j then b else Slot(s.tab[i], s.blk, k)
    requires Slot(s.tab[i], s.blk, TABLE + 1 + j) == 0
    ensures var m := s.(blk := Allocated(s.sb, s.blk, b));
            Grown(s, own, m.(blk := WithEntry(m, i, j, b)), own[b := Owner(i, TABLE + 1 + j)], i)
  {
    hide PutBit, OwnOk, Slot, PutWord;
    TableOwned(s, own, i);
    TableIsData(s, own, i);
    assert s.tab[i := s.tab[i]] == s.tab;
  }

  /** balloc then `a[j] = b` in the indirect table. */
  lemma AllocAttachEntry(s: Fs, own: map<nat, Owner>, i: nat, j: nat, b: nat)
    requires Good(s, own, {}) && s.sb.Meta() <= b < s.sb.size && !BitAt(s.sb, s.blk, b)
    requires i < |s.tab| && j < NINDIRECT && s.tab[i].typ != 0
    requires 0 < s.tab[i].addrs[TABLE] < |s.blk| && Slot(s.tab[i], s.blk, TABLE + 1 + j) == 0
    ensures b !in own && b != s.tab[i].addrs[TABLE]
    ensures var m := s.(blk := Allocated(s.sb, s.blk, b));
            var t := m.(blk := WithEntry(m, i, j, b));
            var own' := own[b := Owner(i, TABLE + 1 + j)];
            && Good(t, own', {}) && Grown(s, own, t, own', i)
            && Slot(t.tab[i], t.blk, TABLE + 1 + j) == b
            && (forall k :: 0 <= k < NSLOTS && k != TABLE + 1 + j ==> Slot(t.tab[i], t.blk, k) == Slot(s.tab[i], s.blk, k))
            && m.blk[m.tab[i].addrs[TABLE]] == s.blk[s.tab[i].addrs[TABLE]]
  {
    hide Bit, PutBit, Good, BitsOk, OwnOk, InodesOk, Slot, PutWord, Grown;
    GoodParts(s, own, {});
    var m := s.(blk := Allocated(s.sb, s.blk, b));
    AllocatedGood(s, own, b);
    GoodParts(m, own, {b});
    OwnSlots(s, own, m.blk, i);
    TableOwned(s, own, i);
    AttachEntryOwn(m, own, i, j, b);
    var t := m.(blk := WithEntry(m, i, j, b));
    var own' := own[b := Owner(i, TABLE + 1 + j)];
    forall k | 0 <= k < NSLOTS
      ensures Slot(t.tab[i], t.blk, k) == if k == TABLE + 1 + j then b else Slot(s.tab[i], s.blk, k)
    {
      EntrySlots(m, own, i, j, b, i, k);
    }
    EntryGrown(s, own, i, j, b);
    GrownGood(s, own, t, own', i);
  }

  // ---- writing file data ----

  lemma DataWrittenRest(s: Fs, own: map<nat, Owner>, i: nat, n: nat, data: Block)
    requires Good(s, own, {}) && i < |s.tab| && n < MAXFILE && Slot(s.tab[i], s.blk, DataSlot(n)) != 0
    ensures var a := Slot(s.tab[i], s.blk, DataSlot(n));
            s.sb.Meta() <= a < s.sb.size && Good(s.(blk := s.blk[a := data]), own, {})
  {
    hide Word, Bit, Slot;
    var a := Slot(s.tab[i], s.blk, DataSlot(n));
    assert own[a] == Owner(i, DataSlot(n));
    var blk := s.blk[a := data];
    OwnFrame(s, own, blk);
    forall b | 0 <= b < s.sb.size ensures BitAt(s.sb, blk, b) == BitAt(s.sb, s.blk, b) {
      BitsFrame(s.sb, s.blk, blk, b);
    }
    forall j | 0 <= j < |s.tab| ensures InodeOk(s.tab[j], blk) {
      assert InodeOk(s.tab[j], s.blk);
    }
  }

  /** Rewriting one data block of inode `i` changes that block of that file only. */
  lemma DataWritten(s: Fs, own: map<nat, Owner>, i: nat, n: nat, data: Block)
    requires Good(s, own, {}) && i < |s.tab| && n < MAXFILE && Slot(s.tab[i], s.blk, DataSlot(n)) != 0
    ensures var a := Slot(s.tab[i], s.blk, DataSlot(n));
            && s.sb.Meta() <= a < s.sb.size
            && Good(s.(blk := s.blk[a := data]), own, {})
            && (forall j :: 0 <= j < MAXFILE * BSIZE ==>
                  ByteAt(s.tab[i], s.blk[a := data], j)
                  == if j / BSIZE == n then data[j % BSIZE] else ByteAt(s.tab[i], s.blk, j))
            && (forall k :: 0 <= k < NSLOTS ==> Slot(s.tab[i], s.blk[a := data], k) == Slot(s.tab[i], s.blk, k))
            && (forall j :: 0 <= j < |s.tab| && j != i ==>
                  Content(s.tab[j], s.blk[a := data]) == Content(s.tab[j], s.blk))
  {
    hide Word, Bit, Slot, Bytes;
    var a := Slot(s.tab[i], s.blk, DataSlot(n));
    assert own[a] == Owner(i, DataSlot(n));
    var blk := s.blk[a := data];
    OwnFrame(s, own, blk);
    forall j | 0 <= j < MAXFILE * BSIZE
      ensures ByteAt(s.tab[i], blk, j) == if j / BSIZE == n then data[j % BSIZE] else ByteAt(s.tab[i], s.blk, j)
    {
      var k := DataSlot(j / BSIZE);
      if j / BSIZE != n && Slot(s.tab[i], s.blk, k) == a {
        SlotsDistinct(s, own, i, k, i, DataSlot(n));
      }
    }
    forall j | 0 <= j < |s.tab| && j != i ensures Content(s.tab[j], blk) == Content(s.tab[j], s.blk) {
      assert InodeOk(s.tab[j], s.blk);
      BytesFrame(s, own, blk, j, s.tab[j].size);
    }
    DataWrittenRest(s, own, i, n, data);
  }

  /** Block `b` with `x` copied in at `lo`. */
  function Patch(b: Block, lo: nat, x: seq<Byte>): (r: Block)
    requires lo + |x| <= BSIZE
  {
    b[..lo] + x + b[lo + |x|..]
  }

  /** Byte `j` of a file lies in the part of block `bn` from `lo` on, `m` bytes long. */
  predicate Within(j: nat, bn: nat, lo: nat, m: nat) {
    j / BSIZE == bn && lo <= j % BSIZE < lo + m
  }

  /** From `s` to `t`, `x` was written at `lo` in block `bn` of file `i`, whose first `cur` bytes
      were mapped, and nothing else changed. */
  ghost predicate BlockWritten(s: Fs, t: Fs, i: nat, bn: nat, lo: nat, x: seq<Byte>, cur: nat) {
    && s.Shape() && t.Shape() && t.sb == s.sb && i < |s.tab|
    && InodesOk(s) && InodesOk(t)
    && bn < MAXFILE && cur <= MAXFILE * BSIZE
    && t.tab[i] == s.tab[i].(addrs := t.tab[i].addrs)
    && t.tab == s.tab[i := t.tab[i]]
    && (forall j :: 0 <= j < |s.tab| && j != i ==> Content(t.tab[j], t.blk) == Content(s.tab[j], s.blk))
    && Mapped(t.tab[i], t.blk, cur) && Slot(t.tab[i], t.blk, DataSlot(bn)) != 0
    && (forall j :: 0 <= j < cur && !Within(j, bn, lo, |x|) ==>
          ByteAt(t.tab[i], t.blk, j) == ByteAt(s.tab[i], s.blk, j))
    && (forall j :: 0 <= j < MAXFILE * BSIZE && Within(j, bn, lo, |x|) ==>
          ByteAt(t.tab[i], t.blk, j) == x[j % BSIZE - lo])
  }

  lemma BytesAt(d: Dinode, blk: seq<Block>, n: nat, j: nat)
    requires j < n <= MAXFILE * BSIZE
    ensures Bytes(d, blk, n)[j] == ByteAt(d, blk, j)
  {
  }

  lemma SlotInRange(s: Fs, own: map<nat, Owner>, i: nat, k: nat)
    requires Good(s, own, {}) && i < |s.tab| && k < NSLOTS && Slot(s.tab[i], s.blk, k) != 0
    ensures s.sb.Meta() <= Slot(s.tab[i], s.blk, k) < s.sb.size
    ensures k <= TABLE ==> s.sb.Meta() <= s.tab[i].addrs[k] < s.sb.size
  {
  }

  lemma MapThenPatch(s: Fs, own: map<nat, Owner>, m: Fs, own': map<nat, Owner>, i: nat, bn: nat,
                     lo: nat, x: seq<Byte>, cur: nat)
    requires Good(s, own, {}) && Good(m, own', {}) && Grown(s, own, m, own', i) && s.tab[i].typ != 0
    requires bn < MAXFILE && lo + |x| <= BSIZE && cur <= MAXFILE * BSIZE
    requires Mapped(s.tab[i], s.blk, cur) && Slot(m.tab[i], m.blk, DataSlot(bn)) != 0
    ensures var a := Slot(m.tab[i], m.blk, DataSlot(bn));
            && s.sb.Meta() <= a < s.sb.size
            && var t := m.(blk := m.blk[a := Patch(m.blk[a], lo, x)]);
               Good(t, own', {}) && BlockWritten(s, t, i, bn, lo, x, cur)
               && (forall k :: 0 <= k < NSLOTS ==> Slot(t.tab[i], t.blk, k) == Slot(m.tab[i], m.blk, k))
  {
    hide Slot, Bit, Bytes, BitsOk, OwnOk;
    GrownContents(s, own, m, own', i, cur);
    var a := Slot(m.tab[i], m.blk, DataSlot(bn));
    SlotInRange(m, own', i, DataSlot(bn));
    var data := Patch(m.blk[a], lo, x);
    DataWritten(m, own', i, bn, data);
    var t := m.(blk := m.blk[a := data]);
    forall j | 0 <= j < cur ensures ByteAt(m.tab[i], m.blk, j) == ByteAt(s.tab[i], s.blk, j) {
      BytesAt(m.tab[i], m.blk, cur, j);
      BytesAt(s.tab[i], s.blk, cur, j);
    }
    forall j | 0 <= j < MAXFILE * BSIZE && j / BSIZE == bn
      ensures Within(j, bn, lo, |x|) ==> ByteAt(t.tab[i], t.blk, j) == x[j % BSIZE - lo]
      ensures !Within(j, bn, lo, |x|) ==> ByteAt(t.tab[i], t.blk, j) == ByteAt(m.tab[i], m.blk, j)
    {
    }
  }

  /** `c` with `x` stored from byte `off` on, longer if `x` reaches past the end. */
  function Overwrite(c: seq<Byte>, off: nat, x: seq<Byte>): (r: seq<Byte>)
    requires off <= |c|
  {
    if off + |x| <= |c| then c[..off] + x + c[off + |x|..] else c[..off] + x
  }

  /** A file being overwritten from `off0` on, `done` bytes so far, of a file that held `c`. */
  ghost predicate Partway(d: Dinode, blk: seq<Block>, c: seq<Byte>, off0: nat, src: seq<Byte>, done: nat) {
    && done <= |src| && off0 <= |c| && |c| <= MAXFILE * BSIZE && off0 + |src| <= MAXFILE * BSIZE
    && var cur := if off0 + done <= |c| then |c| else off0 + done;
       && Mapped(d, blk, cur)
       && Bytes(d, blk, cur) == Overwrite(c, off0, src[..done])
  }

  lemma OverwriteAt(c: seq<Byte>, off: nat, src: seq<Byte>, n: nat, j: nat)
    requires off <= |c| && n <= |src| && (j < |c| || j < off + n)
    ensures j < |Overwrite(c, off, src[..n])|
    ensures Overwrite(c, off, src[..n])[j] == if off <= j < off + n then src[j - off] else c[j]
  {
  }

  lemma OutOfBlock(off: nat, m: nat, j: nat)
    requires !(off <= j < off + m)
    ensures !Within(j, off / BSIZE, off % BSIZE, m)
  {
    assert off == BSIZE * (off / BSIZE) + off % BSIZE;
    assert j == BSIZE * (j / BSIZE) + j % BSIZE;
  }

  lemma InBlock(off: nat, y: nat)
    requires off % BSIZE + y < BSIZE
    ensures (off + y) / BSIZE == off / BSIZE && (off + y) % BSIZE == off % BSIZE + y
  {
    assert off == BSIZE * (off / BSIZE) + off % BSIZE;
  }

  lemma PartwayByte(s: Fs, t: Fs, i: nat, c: seq<Byte>, off0: nat, src: seq<Byte>, done: nat, m: nat, j: nat)
    requires s.Shape() && i < |s.tab| && Partway(s.tab[i], s.blk, c, off0, src, done)
    requires 0 < m <= |src| - done && (off0 + done) % BSIZE + m <= BSIZE
    requires BlockWritten(s, t, i, (off0 + done) / BSIZE, (off0 + done) % BSIZE, src[done..done + m],
                          if off0 + done <= |c| then |c| else off0 + done)
    requires j < |c| || j < off0 + done + m
    ensures j < |Overwrite(c, off0, src[..done + m])| && j < MAXFILE * BSIZE
    ensures ByteAt(t.tab[i], t.blk, j) == Overwrite(c, off0, src[..done + m])[j]
  {
    hide Slot, InodesOk, Content, Overwrite, Mapped;
    var off := off0 + done;
    OverwriteAt(c, off0, src, done + m, j);
    if off <= j < off + m {
      InBlock(off, j - off);
      assert Within(j, off / BSIZE, off % BSIZE, m);
    } else {
      OutOfBlock(off, m, j);
      BytesAt(s.tab[i], s.blk, if off <= |c| then |c| else off, j);
      OverwriteAt(c, off0, src, done, j);
    }
  }

  lemma OverwriteLength(c: seq<Byte>, off: nat, src: seq<Byte>, n: nat)
    requires off <= |c| && n <= |src|
    ensures |Overwrite(c, off, src[..n])| == if off + n <= |c| then |c| else off + n
  {
  }

  /** The next chunk: `m` bytes, within one block, at the place writing has reached. */
  lemma PartwayStep(s: Fs, t: Fs, i: nat, c: seq<Byte>, off0: nat, src: seq<Byte>, done: nat, m: nat)
    requires s.Shape() && i < |s.tab| && Partway(s.tab[i], s.blk, c, off0, src, done)
    requires 0 < m <= |src| - done && (off0 + done) % BSIZE + m <= BSIZE
    requires BlockWritten(s, t, i, (off0 + done) / BSIZE, (off0 + done) % BSIZE, src[done..done + m],
                          if off0 + done <= |c| then |c| else off0 + done)
    ensures Partway(t.tab[i], t.blk, c, off0, src, done + m)
  {
    hide Slot, InodesOk, Content;
    var off := off0 + done;
    var bn, lo := off / BSIZE, off % BSIZE;
    var x := src[done..done + m];
    var cur := if off <= |c| then |c| else off;
    var cur' := if off + m <= |c| then |c| else off + m;
    assert BlocksFor(cur') <= BlocksFor(cur) || BlocksFor(cur') == bn + 1;
    assert BlocksFor(cur) >= bn;
    assert Mapped(t.tab[i], t.blk, cur');
    forall j | 0 <= j < cur' ensures Bytes(t.tab[i], t.blk, cur')[j] == Overwrite(c, off0, src[..done + m])[j] {
      PartwayByte(s, t, i, c, off0, src, done, m, j);
    }
    OverwriteLength(c, off0, src, done + m);
  }

  /** writei part way: `tot` bytes of `src` are in file `i`; no other file has changed; while the
      write stays inside the old file no block has been added. */
  ghost predicate Writing(s0: Fs, s: Fs, own: map<nat, Owner>, i: nat, off0: nat, src: seq<Byte>, tot: nat) {
    && s0.Shape() && InodesOk(s0) && Good(s, own, {}) && s.sb == s0.sb && i < |s0.tab| && s0.tab[i].typ != 0
    && s.tab == s0.tab[i := s.tab[i]]
    && s.tab[i] == s0.tab[i].(addrs := s.tab[i].addrs)
    && Partway(s.tab[i], s.blk, Content(s0.tab[i], s0.blk), off0, src, tot)
    && (forall j :: 0 <= j < |s.tab| && j != i ==> Content(s.tab[j], s.blk) == Content(s0.tab[j], s0.blk))
    && (off0 + tot <= s0.tab[i].size ==> s.tab[i].addrs == s0.tab[i].addrs)
  }

  lemma WritingStart(s: Fs, own: map<nat, Owner>, i: nat, off0: nat, src: seq<Byte>)
    requires Good(s, own, {}) && i < |s.tab| && s.tab[i].typ != 0
    requires off0 <= s.tab[i].size && off0 + |src| <= MAXFILE * BSIZE
    ensures Writing(s, s, own, i, off0, src, 0)
  {
    hide Slot, Bytes, OwnOk, BitsOk;
    assert InodeOk(s.tab[i], s.blk);
    var c := Content(s.tab[i], s.blk);
    assert Overwrite(c, off0, src[..0]) == c;
    assert s.tab[i := s.tab[i]] == s.tab;
    GoodParts(s, own, {});
  }

  /** How far file `i` is mapped once writing has reached `off`. */
  function Reached(s0: Fs, i: nat, off: nat): (cur: nat)
    requires i < |s0.tab|
  {
    if off <= s0.tab[i].size then s0.tab[i].size else off
  }

  lemma WritingStep(s0: Fs, s: Fs, o: map<nat, Owner>, t: Fs, own: map<nat, Owner>, i: nat,
                    off0: nat, src: seq<Byte>, tot: nat, m: nat)
    requires Writing(s0, s, o, i, off0, src, tot) && Good(t, own, {})
    requires 0 < m <= |src| - tot && (off0 + tot) % BSIZE + m <= BSIZE
    requires BlockWritten(s, t, i, (off0 + tot) / BSIZE, (off0 + tot) % BSIZE, src[tot..tot + m],
                          Reached(s0, i, off0 + tot))
    requires (off0 + tot) / BSIZE < BlocksFor(Reached(s0, i, off0 + tot)) ==> t.tab[i].addrs == s.tab[i].addrs
    ensures Writing(s0, t, own, i, off0, src, tot + m)
  {
    hide Slot, Bytes, OwnOk, BitsOk, InodeOk, Mapped;
    assert |Content(s0.tab[i], s0.blk)| == s0.tab[i].size;
    PartwayStep(s, t, i, Content(s0.tab[i], s0.blk), off0, src, tot, m);
  }

  /** What a turn may rely on: the file is mapped up to where writing has reached, so a first
      block that the old file partly fills is already there. */
  lemma WritingMapped(s0: Fs, s: Fs, own: map<nat, Owner>, i: nat, off0: nat, src: seq<Byte>, tot: nat)
    requires Writing(s0, s, own, i, off0, src, tot) && tot < |src|
    ensures Reached(s0, i, off0 + tot) <= MAXFILE * BSIZE
    ensures (off0 + tot) / BSIZE < MAXFILE
    ensures Mapped(s.tab[i], s.blk, Reached(s0, i, off0 + tot))
    ensures tot == 0 && off0 % BSIZE != 0 ==> Slot(s.tab[i], s.blk, DataSlot(off0 / BSIZE)) != 0
  {
    hide Slot, Bytes, OwnOk, BitsOk;
    assert |Content(s0.tab[i], s0.blk)| == s0.tab[i].size;
    if tot == 0 && off0 % BSIZE != 0 {
      assert off0 / BSIZE < BlocksFor(s0.tab[i].size);
    }
  }

  /** The write is done and stayed inside the old file: the inode never changed. */
  lemma WritingInside(s0: Fs, s: Fs, own: map<nat, Owner>, i: nat, off0: nat, src: seq<Byte>)
    requires Writing(s0, s, own, i, off0, src, |src|) && off0 + |src| <= s0.tab[i].size
    ensures s.tab == s0.tab
    ensures Content(s.tab[i], s.blk) == Overwrite(Content(s0.tab[i], s0.blk), off0, src)
    ensures forall j :: 0 <= j < |s.tab| && j != i ==> Content(s.tab[j], s.blk) == Content(s0.tab[j], s0.blk)
  {
    hide Slot, Bytes, OwnOk, BitsOk, InodeOk, Mapped;
    assert src[..|src|] == src;
  }

  lemma ResizeBytes(d: Dinode, size: Word32, blk: seq<Block>, n: nat)
    requires n <= MAXFILE * BSIZE
    ensures Bytes(d.(size := size), blk, n) == Bytes(d, blk, n)
  {
    hide Word;
    assert forall j :: 0 <= j < n ==> ByteAt(d.(size := size), blk, j) == ByteAt(d, blk, j);
  }

  lemma ResizeSlots(d: Dinode, size: Word32, blk: seq<Block>)
    ensures forall k :: 0 <= k < NSLOTS ==> Slot(d.(size := size), blk, k) == Slot(d, blk, k)
  {
  }

  lemma ResizeGood(s: Fs, own: map<nat, Owner>, i: nat, size: Word32)
    requires Good(s, own, {}) && i < |s.tab| && s.tab[i].typ != 0
    requires size <= MAXFILE * BSIZE && Mapped(s.tab[i], s.blk, size)
    ensures Good(s.(tab := s.tab[i := s.tab[i].(size := size)]), own, {})
  {
    hide Slot, Bit;
    ResizeSlots(s.tab[i], size, s.blk);
  }

  /** The write is done and reached past the end: with the new size the inode is in order. */
  lemma WritingPast(s0: Fs, s: Fs, own: map<nat, Owner>, i: nat, off0: nat, src: seq<Byte>)
    requires Writing(s0, s, own, i, off0, src, |src|) && off0 + |src| > s0.tab[i].size
    ensures var d := s.tab[i].(size := off0 + |src|);
            && Good(s.(tab := s.tab[i := d]), own, {})
            && Content(d, s.blk) == Overwrite(Content(s0.tab[i], s0.blk), off0, src)
            && d == s0.tab[i].(addrs := d.addrs, size := d.size)
    ensures InodesOk(s0) && s.tab == s0.tab[i := s.tab[i]]
    ensures forall j :: 0 <= j < |s.tab| && j != i ==> Content(s.tab[j], s.blk) == Content(s0.tab[j], s0.blk)
  {
    hide Bit, Bytes, Word, Slot, OwnOk, BitsOk, InodeOk;
    assert src[..|src|] == src;
    ResizeBytes(s.tab[i], off0 + |src|, s.blk, off0 + |src|);
    ResizeGood(s, own, i, off0 + |src|);
  }

  // ---- writing inodes back ----

  /** iupdate's effect. */
  function WithInode(sb: Super, blk: seq<Block>, i: nat, d: Dinode): (r: seq<Block>)
    requires sb.Ok() && |blk| == sb.size && i < sb.ninodes
    ensures |r| == |blk|
  {
    blk[sb.IBlock(i) := PutDinode(blk[sb.IBlock(i)], i % IPB, d)]
  }

  lemma TableOfWithInode(sb: Super, blk: seq<Block>, i: nat, d: Dinode)
    requires sb.Ok() && |blk| == sb.size && i < sb.ninodes
    ensures Table(sb, WithInode(sb, blk, i, d)) == Table(sb, blk)[i := d]
  {
    hide DinodeIn, PutDinode;
    var blk' := WithInode(sb, blk, i, d);
    forall j | 0 <= j < sb.ninodes ensures Table(sb, blk')[j] == Table(sb, blk)[i := d][j] {
      if sb.IBlock(j) == sb.IBlock(i) {
        DinodeOfPut(blk[sb.IBlock(i)], i % IPB, d, j % IPB);
        assert i == IPB * (i / IPB) + i % IPB && j == IPB * (j / IPB) + j % IPB;
      }
    }
  }

  /** Inode blocks are metadata: rewriting them disturbs no slot, bit or byte. */
  lemma InodeWritten(s: Fs, own: map<nat, Owner>, i: nat, d: Dinode)
    requires OwnOk(s, own) && BitsOk(s, own, {}) && InodesOk(s) && i < s.sb.ninodes
    ensures Good(s.(blk := WithInode(s.sb, s.blk, i, d)), own, {})
    ensures forall j :: 0 <= j < |s.tab| ==>
              Content(s.tab[j], WithInode(s.sb, s.blk, i, d)) == Content(s.tab[j], s.blk)
  {
    hide Word, Bit, Slot, Bytes, PutDinode, InodeOk;
    var blk := WithInode(s.sb, s.blk, i, d);
    assert s.sb.IBlock(i) < s.sb.bmapstart;
    forall b | b in own ensures blk[b] == s.blk[b] { }
    UnownedFrame(s, own, blk);
    forall b | 0 <= b < s.sb.size ensures BitAt(s.sb, blk, b) == BitAt(s.sb, s.blk, b) {
      BitsFrame(s.sb, s.blk, blk, b);
    }
  }

  // ---- detaching blocks ----

  lemma ClearedSlots(d: Dinode, blk: seq<Block>, k: nat)
    requires k < TABLE
    ensures forall k' :: 0 <= k' < NSLOTS ==> Slot(WithAddr(d, k, 0), blk, k') == if k' == k then 0 else Slot(d, blk, k')
  {
  }

  /** Clearing a direct slot: its block is no longer owned, but still marked in the bitmap. */
  lemma DetachSlot(s: Fs, own: map<nat, Owner>, i: nat, k: nat)
    requires OwnOk(s, own) && BitsOk(s, own, {}) && i < |s.tab| && k < TABLE && s.tab[i].addrs[k] != 0
    ensures var a := s.tab[i].addrs[k];
            var t := s.(tab := s.tab[i := WithAddr(s.tab[i], k, 0)]);
            a in own && own[a] == Owner(i, k) && OwnOk(t, own - {a}) && BitsOk(t, own - {a}, {a})
  {
    hide Slot, Bit;
    var a := s.tab[i].addrs[k];
    SlotIsAddr(s.tab[i], s.blk, k);
    ClearedSlots(s.tab[i], s.blk, k);
    assert own[a] == Owner(i, k);
  }

  /** What inode `i` owns through its indirect table: the table and its entries from `j` on. */
  ghost function Indirect(own: map<nat, Owner>, i: nat, j: nat): (bs: set<nat>) {
    set b | b in own && own[b].inum == i && (own[b].slot == TABLE || own[b].slot > TABLE + j)
  }

  lemma ClearedTable(d: Dinode, blk: seq<Block>)
    ensures forall k :: 0 <= k < NSLOTS ==> Slot(WithAddr(d, TABLE, 0), blk, k) == if k >= TABLE then 0 else Slot(d, blk, k)
  {
  }

  /** Clearing the indirect table detaches it and all its entries. */
  lemma DetachTable(s: Fs, own: map<nat, Owner>, i: nat)
    requires OwnOk(s, own) && BitsOk(s, own, {}) && i < |s.tab|
    ensures var t := s.(tab := s.tab[i := WithAddr(s.tab[i], TABLE, 0)]);
            OwnOk(t, own - Indirect(own, i, 0)) && BitsOk(t, own - Indirect(own, i, 0), Indirect(own, i, 0))
  {
    hide Slot, Bit;
    ClearedTable(s.tab[i], s.blk);
  }

  /** The next indirect entry to free is owned through that entry, or empty. */
  lemma NextIndirect(s: Fs, own: map<nat, Owner>, i: nat, j: nat)
    requires OwnOk(s, own) && i < |s.tab| && j < NINDIRECT && 0 < s.tab[i].addrs[TABLE] < |s.blk|
    ensures var a := Word(s.blk[s.tab[i].addrs[TABLE]], j);
            if a == 0 then Indirect(own, i, j + 1) == Indirect(own, i, j)
            else a in Indirect(own, i, j) && Indirect(own, i, j + 1) == Indirect(own, i, j) - {a}
  {
    hide Word;
    var a := Word(s.blk[s.tab[i].addrs[TABLE]], j);
    assert a == Slot(s.tab[i], s.blk, TABLE + 1 + j);
    if a != 0 { assert own[a] == Owner(i, TABLE + 1 + j); }
    forall b | b in own && own[b] == Owner(i, TABLE + 1 + j) ensures b == a {
      assert Slot(s.tab[i], s.blk, TABLE + 1 + j) == b;
    }
  }

  lemma LastIndirect(s: Fs, own: map<nat, Owner>, i: nat)
    requires OwnOk(s, own) && i < |s.tab| && s.tab[i].addrs[TABLE] != 0
    ensures Indirect(own, i, NINDIRECT) == {s.tab[i].addrs[TABLE]}
  {
    hide Word;
    var t := s.tab[i].addrs[TABLE];
    assert Slot(s.tab[i], s.blk, TABLE) == t;
    assert own[t] == Owner(i, TABLE);
    forall b | b in Indirect(own, i, NINDIRECT) ensures b == t {
      assert own[b].slot == TABLE;
      assert Slot(s.tab[i], s.blk, TABLE) == b;
    }
  }

  /** Two block arrays that differ in the bitmap only. */
  predicate OnlyBitmap(sb: Super, blk: seq<Block>, blk': seq<Block>) {
    |blk'| == |blk| && forall c :: 0 <= c < |blk| && !(sb.bmapstart <= c < sb.Meta()) ==> blk'[c] == blk[c]
  }

  /** `own` is `own0` with some of inode `i`'s blocks removed, and nobody else's. */
  ghost predicate Shrunk(own0: map<nat, Owner>, own: map<nat, Owner>, i: nat) {
    && own.Keys <= own0.Keys
    && (forall b :: b in own ==> own[b] == own0[b])
    && (forall b :: b in own0 && own0[b].inum != i ==> b in own)
  }

  /** Everything inode `i` does not own. */
  ghost function NotOf(own: map<nat, Owner>, i: nat): (r: map<nat, Owner>) {
    map b | b in own && own[b].inum != i :: own[b]
  }

  /** Once inode `i` has no slots left, exactly its blocks are gone from the ownership map. */
  lemma NothingLeft(s: Fs, own0: map<nat, Owner>, own: map<nat, Owner>, i: nat)
    requires OwnOk(s, own) && i < |s.tab| && s.tab[i].addrs == NoAddrs() && Shrunk(own0, own, i)
    ensures own == NotOf(own0, i)
  {
    EmptyTable(s.tab[i], s.blk);
    assert forall k :: 0 <= k < NSLOTS ==> Slot(s.tab[i], s.blk, k) == 0;
  }

  /** What is left once inode `i` owns nothing: everyone else as before. */
  lemma Emptied(s0: Fs, own0: map<nat, Owner>, s: Fs, own: map<nat, Owner>, i: nat)
    requires Good(s0, own0, {}) && i < |s0.tab| && OnlyBitmap(s0.sb, s0.blk, s.blk) && s.sb == s0.sb
    requires OwnOk(s, own) && BitsOk(s, own, {})
    requires s.tab == s0.tab[i := s0.tab[i].(size := 0, addrs := NoAddrs())]
    ensures Good(s, own, {})
    ensures forall j :: 0 <= j < |s.tab| && j != i ==> Content(s.tab[j], s.blk) == Content(s0.tab[j], s0.blk)
  {
    hide Slot, Bit, Bytes;
    forall b | b in own0 ensures s.blk[b] == s0.blk[b] { }
    UnownedFrame(s0, own0, s.blk);
    forall j | 0 <= j < |s.tab| ensures InodeOk(s.tab[j], s.blk) {
      if j != i { assert InodeOk(s0.tab[j], s.blk); }
    }
  }
}
