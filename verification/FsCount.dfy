/** Counting blocks: how many are free, how many a write has to allocate, and which ones it
    hands to log_write. */
module FsCount {
  import opened Blocks
  import opened FsSpec
  import opened Sets

  // ---- free blocks ----

  /** How many of the first `n` blocks the bitmap marks free. */
  function ClearBits(sb: Super, blk: seq<Block>, n: nat): (k: nat)
    requires sb.Ok() && |blk| == sb.size && n <= sb.size
  {
    if n == 0 then 0
    else ClearBits(sb, blk, n - 1) + if BitAt(sb, blk, n - 1) then 0 else 1
  }

  /** Blocks the bitmap marks free. */
  function FreeBlocks(sb: Super, blk: seq<Block>): (k: nat)
    requires sb.Ok() && |blk| == sb.size
  {
    ClearBits(sb, blk, sb.size)
  }

  ghost function OwnedBelow(own: map<nat, Owner>, n: nat): (bs: set<nat>) {
    set b | b in own && b < n
  }

  lemma BitIs(s: Fs, own: map<nat, Owner>, b: nat)
    requires OwnOk(s, own) && BitsOk(s, own, {}) && b < s.sb.size
    ensures BitAt(s.sb, s.blk, b) <==> b < s.sb.Meta() || b in own
    ensures b in own ==> s.sb.Meta() <= b
  {
  }

  lemma {:induction false} ClearBelow(s: Fs, own: map<nat, Owner>, n: nat)
    requires s.Shape() && OwnOk(s, own) && BitsOk(s, own, {}) && n <= s.sb.size
    ensures ClearBits(s.sb, s.blk, n) + |OwnedBelow(own, n)| == if n <= s.sb.Meta() then 0 else n - s.sb.Meta()
  {
    hide Bit, OwnOk, BitsOk;
    if n == 0 {
      assert OwnedBelow(own, 0) == {};
    } else {
      ClearBelow(s, own, n - 1);
      BitIs(s, own, n - 1);
      if n - 1 in own {
        assert OwnedBelow(own, n) == OwnedBelow(own, n - 1) + {n - 1};
      } else {
        assert OwnedBelow(own, n) == OwnedBelow(own, n - 1);
      }
    }
  }

  /** Between operations the free blocks are the data blocks no inode owns. */
  lemma FreeIsUnowned(s: Fs, own: map<nat, Owner>)
    requires Good(s, own, {})
    ensures FreeBlocks(s.sb, s.blk) + |own| == s.sb.nblocks
  {
    hide Bit, Slot;
    ClearBelow(s, own, s.sb.size);
    assert OwnedBelow(own, s.sb.size) == own.Keys;
  }

  /** No block is free exactly when every bit is set. */
  lemma {:induction false} NoneFree(sb: Super, blk: seq<Block>, n: nat)
    requires sb.Ok() && |blk| == sb.size && n <= sb.size
    ensures ClearBits(sb, blk, n) == 0 <==> forall b :: 0 <= b < n ==> BitAt(sb, blk, b)
  {
    hide Bit;
    if n > 0 { NoneFree(sb, blk, n - 1); }
  }

  lemma FullMeansAllOwned(s: Fs, own: map<nat, Owner>)
    requires Good(s, own, {})
    ensures (forall b :: 0 <= b < s.sb.size ==> BitAt(s.sb, s.blk, b)) <==> |own| == s.sb.nblocks
    ensures |own| <= s.sb.nblocks
  {
    hide Bit, Good, Slot;
    GoodParts(s, own, {});
    FreeIsUnowned(s, own);
    NoneFree(s.sb, s.blk, s.sb.size);
  }

  // ---- blocks a write has to allocate ----

  /** What bmap allocates for file block `bn`: nothing if mapped, else the block, and the indirect
      table if that is missing too. */
  function Lacks(d: Dinode, blk: seq<Block>, bn: nat): (k: nat)
    requires bn < MAXFILE
  {
    if Slot(d, blk, DataSlot(bn)) != 0 then 0
    else if bn >= NDIRECT && d.addrs[TABLE] == 0 then 2 else 1
  }

  /** File blocks in [lo, hi) that are not mapped. */
  function Missing(d: Dinode, blk: seq<Block>, lo: nat, hi: nat): (k: nat)
    requires hi <= MAXFILE
  {
    if hi <= lo then 0
    else Missing(d, blk, lo, hi - 1) + if Slot(d, blk, DataSlot(hi - 1)) == 0 then 1 else 0
  }

  /** Blocks a write of file blocks [lo, hi) allocates: the missing ones and a missing table. */
  function Need(d: Dinode, blk: seq<Block>, lo: nat, hi: nat): (k: nat)
    requires hi <= MAXFILE
  {
    Missing(d, blk, lo, hi) + if lo < hi && NDIRECT < hi && d.addrs[TABLE] == 0 then 1 else 0
  }

  predicate ExtendedAt(d0: Dinode, blk0: seq<Block>, d: Dinode, blk: seq<Block>, lo: nat, hi: nat, bn: nat)
    requires bn < MAXFILE
  {
    && (lo <= bn < hi ==> Slot(d, blk, DataSlot(bn)) != 0)
    && (Slot(d0, blk0, DataSlot(bn)) != 0 || !(lo <= bn < hi) ==>
          Slot(d, blk, DataSlot(bn)) == Slot(d0, blk0, DataSlot(bn)))
  }

  /** From `d0` to `d`, file blocks [lo, hi) have all become mapped; no mapped block has moved and
      no other was touched. */
  predicate Extended(d0: Dinode, blk0: seq<Block>, d: Dinode, blk: seq<Block>, lo: nat, hi: nat) {
    && (forall bn :: 0 <= bn < MAXFILE ==> ExtendedAt(d0, blk0, d, blk, lo, hi, bn))
    && (d0.addrs[TABLE] != 0 ==> d.addrs[TABLE] == d0.addrs[TABLE])
    && (d.addrs[TABLE] == 0 <==> d0.addrs[TABLE] == 0 && !(lo < hi && NDIRECT < hi))
  }

  lemma ExtendedSelf(d: Dinode, blk: seq<Block>, lo: nat)
    ensures Extended(d, blk, d, blk, lo, lo)
  {
  }

  /** An inode without an indirect table has no indirect block mapped. */
  lemma NoTable(d: Dinode, blk: seq<Block>, bn: nat)
    requires bn < MAXFILE && Slot(d, blk, DataSlot(bn)) != 0
    ensures bn >= NDIRECT ==> d.addrs[TABLE] != 0
  {
  }

  /** The next block of a write in progress lacks what the whole write's need grows by. */
  lemma NeedStep(d0: Dinode, blk0: seq<Block>, d: Dinode, blk: seq<Block>, lo: nat, bn: nat)
    requires lo <= bn < MAXFILE && Extended(d0, blk0, d, blk, lo, bn)
    ensures Need(d0, blk0, lo, bn + 1) == Need(d0, blk0, lo, bn) + Lacks(d, blk, bn)
  {
    hide Slot;
    assert ExtendedAt(d0, blk0, d, blk, lo, bn, bn);
    if Slot(d0, blk0, DataSlot(bn)) != 0 { NoTable(d0, blk0, bn); }
  }

  lemma {:induction false} NeedGrows(d: Dinode, blk: seq<Block>, lo: nat, mid: nat, hi: nat)
    requires mid <= hi <= MAXFILE
    ensures Need(d, blk, lo, mid) <= Need(d, blk, lo, hi)
    decreases hi
  {
    if mid < hi { NeedGrows(d, blk, lo, mid, hi - 1); }
  }

  /** A write cut in two needs what its halves need, the second seeing what the first mapped. The
      cut may fall inside a block, which both then touch. */
  lemma {:induction false} NeedSplit(d0: Dinode, blk0: seq<Block>, d: Dinode, blk: seq<Block>, lo: nat, mid: nat, from: nat, hi: nat)
    requires lo <= mid <= hi <= MAXFILE && lo <= from <= mid <= from + 1
    requires Extended(d0, blk0, d, blk, lo, mid)
    ensures Need(d0, blk0, lo, hi) == Need(d0, blk0, lo, mid) + Need(d, blk, from, hi)
    decreases hi
  {
    hide Slot;
    if hi == mid {
      if from < mid {
        assert ExtendedAt(d0, blk0, d, blk, lo, mid, from);
        assert Missing(d, blk, from, from) == 0;
        assert NDIRECT < hi ==> d.addrs[TABLE] != 0;
      }
    } else {
      NeedSplit(d0, blk0, d, blk, lo, mid, from, hi - 1);
      assert ExtendedAt(d0, blk0, d, blk, lo, mid, hi - 1);
    }
  }

  lemma ExtendedTrans(d0: Dinode, blk0: seq<Block>, d: Dinode, blk: seq<Block>, e: Dinode, blk': seq<Block>,
                      lo: nat, mid: nat, from: nat, hi: nat)
    requires lo <= from <= mid <= from + 1 && mid <= hi
    requires Extended(d0, blk0, d, blk, lo, mid) && Extended(d, blk, e, blk', from, hi)
    ensures Extended(d0, blk0, e, blk', lo, hi)
  {
    hide Slot;
    forall b | 0 <= b < MAXFILE ensures ExtendedAt(d0, blk0, e, blk', lo, hi, b) {
      assert ExtendedAt(d0, blk0, d, blk, lo, mid, b) && ExtendedAt(d, blk, e, blk', from, hi, b);
    }
  }

  // ---- blocks a write logs ----

  /** No slot has changed outside `except`. */
  predicate SameSlots(d0: Dinode, blk0: seq<Block>, d: Dinode, blk: seq<Block>, except: set<nat>) {
    forall k :: 0 <= k < NSLOTS && k !in except ==> Slot(d, blk, k) == Slot(d0, blk0, k)
  }

  /** What bmap hands to log_write when file block `bn` has to be allocated at `a`. */
  function BmapLog(sb: Super, bn: nat, newTable: bool, t: nat, a: nat): (bs: set<nat>) {
    {sb.BBlock(a), a}
    + (if bn < NDIRECT then {} else if newTable then {t, sb.BBlock(t)} else {t})
  }

  /** The blocks one turn of writei's loop logs: the data block, and what bmap logged. */
  function WriteLog(sb: Super, bn: nat, old_a: nat, old_t: nat, t: nat, a: nat): (bs: set<nat>) {
    {a} + if old_a != 0 then {} else BmapLog(sb, bn, old_t == 0, t, a)
  }

  /** What the turn for file block `bn` hands to log_write: the data block; if it had to be
      allocated, its bitmap block, and for an indirect block the table; if the table had to be
      allocated, its bitmap block. */
  function TurnLog(sb: Super, d0: Dinode, blk0: seq<Block>, d: Dinode, blk: seq<Block>, bn: nat): (bs: set<nat>)
    requires bn < MAXFILE
  {
    var a, t := Slot(d, blk, DataSlot(bn)), d.addrs[TABLE];
    if Slot(d0, blk0, DataSlot(bn)) != 0 then {a}
    else if bn < NDIRECT then {a, sb.BBlock(a)}
    else if d0.addrs[TABLE] != 0 then {a, sb.BBlock(a), t}
    else {a, sb.BBlock(a), t, sb.BBlock(t)}
  }

  function TurnSet(sb: Super, d0: Dinode, blk0: seq<Block>, d: Dinode, blk: seq<Block>, lo: nat, hi: nat): (bs: set<nat>)
    requires hi <= MAXFILE
  {
    if hi <= lo then {}
    else TurnSet(sb, d0, blk0, d, blk, lo, hi - 1) + TurnLog(sb, d0, blk0, d, blk, hi - 1)
  }

  /** Later turns do not change what earlier ones logged. */
  lemma {:induction false} TurnSetSame(sb: Super, d0: Dinode, blk0: seq<Block>, d: Dinode, blk: seq<Block>,
                                       e: Dinode, blk': seq<Block>, lo: nat, hi: nat)
    requires hi <= MAXFILE
    requires forall bn :: lo <= bn < hi ==> Slot(e, blk', DataSlot(bn)) == Slot(d, blk, DataSlot(bn))
    requires lo < hi && NDIRECT < hi ==> e.addrs[TABLE] == d.addrs[TABLE]
    ensures TurnSet(sb, d0, blk0, e, blk', lo, hi) == TurnSet(sb, d0, blk0, d, blk, lo, hi)
  {
    hide Slot;
    if lo < hi { TurnSetSame(sb, d0, blk0, d, blk, e, blk', lo, hi - 1); }
  }

  /** One turn, from `d` to `e`, maps file block `bn` and touches no other. */
  predicate Turn(d: Dinode, blk: seq<Block>, e: Dinode, blk': seq<Block>, bn: nat)
    requires bn < MAXFILE
  {
    && SameSlots(d, blk, e, blk', {DataSlot(bn), TABLE})
    && Slot(e, blk', DataSlot(bn)) != 0
    && (Slot(d, blk, DataSlot(bn)) != 0 ==> Slot(e, blk', DataSlot(bn)) == Slot(d, blk, DataSlot(bn)))
    && (d.addrs[TABLE] != 0 || bn < NDIRECT ==> e.addrs[TABLE] == d.addrs[TABLE])
    && (bn >= NDIRECT ==> e.addrs[TABLE] != 0)
  }

  lemma TurnExtends(d0: Dinode, blk0: seq<Block>, d: Dinode, blk: seq<Block>, e: Dinode, blk': seq<Block>, lo: nat, bn: nat)
    requires lo <= bn < MAXFILE && Extended(d0, blk0, d, blk, lo, bn) && Turn(d, blk, e, blk', bn)
    ensures Extended(d0, blk0, e, blk', lo, bn + 1)
  {
    hide Slot;
    var hi := bn + 1;
    forall b | 0 <= b < MAXFILE ensures ExtendedAt(d0, blk0, e, blk', lo, hi, b) {
      assert ExtendedAt(d0, blk0, d, blk, lo, bn, b);
      if b != bn { assert DataSlot(b) !in {DataSlot(bn), TABLE}; }
    }
  }

  /** A turn logs the same blocks whether the table was missing at the start of the write or
      only now, except the bitmap block of a table an earlier turn has logged already. */
  lemma TurnLogIs(sb: Super, d0: Dinode, blk0: seq<Block>, d: Dinode, e: Dinode, blk': seq<Block>, lo: nat, bn: nat, old_t: nat)
    requires lo <= bn < MAXFILE
    requires old_t == 0 <==> d0.addrs[TABLE] == 0 && !(lo < bn && NDIRECT < bn)
    ensures var a, t := Slot(e, blk', DataSlot(bn)), e.addrs[TABLE];
            var log := WriteLog(sb, bn, Slot(d0, blk0, DataSlot(bn)), old_t, t, a);
            var full := TurnLog(sb, d0, blk0, e, blk', bn);
            full == log || (lo < bn && NDIRECT < bn && d0.addrs[TABLE] == 0 && full == log + {sb.BBlock(t)})
  {
    hide Slot;
  }

  lemma TableLogged(sb: Super, d0: Dinode, blk0: seq<Block>, d: Dinode, blk: seq<Block>, lo: nat, bn: nat)
    requires lo < bn <= MAXFILE && NDIRECT < bn && d0.addrs[TABLE] == 0
    ensures sb.BBlock(d.addrs[TABLE]) in TurnSet(sb, d0, blk0, d, blk, lo, bn)
  {
    assert Slot(d0, blk0, DataSlot(bn - 1)) == 0;
  }

  /** The turn's own log completes the set for one block more. */
  lemma TurnLogs(sb: Super, d0: Dinode, blk0: seq<Block>, d: Dinode, blk: seq<Block>, e: Dinode, blk': seq<Block>,
                 lo: nat, bn: nat)
    requires lo <= bn < MAXFILE && Extended(d0, blk0, d, blk, lo, bn) && Turn(d, blk, e, blk', bn)
    ensures TurnSet(sb, d0, blk0, e, blk', lo, bn + 1)
         == TurnSet(sb, d0, blk0, d, blk, lo, bn)
            + WriteLog(sb, bn, Slot(d, blk, DataSlot(bn)), d.addrs[TABLE], e.addrs[TABLE], Slot(e, blk', DataSlot(bn)))
  {
    hide Slot, TurnLog, WriteLog;
    forall b | lo <= b < bn ensures Slot(e, blk', DataSlot(b)) == Slot(d, blk, DataSlot(b)) {
      assert DataSlot(b) !in {DataSlot(bn), TABLE};
    }
    TurnSetSame(sb, d0, blk0, d, blk, e, blk', lo, bn);
    assert ExtendedAt(d0, blk0, d, blk, lo, bn, bn);
    TurnLogIs(sb, d0, blk0, d, e, blk', lo, bn, d.addrs[TABLE]);
    if lo < bn && NDIRECT < bn && d0.addrs[TABLE] == 0 { TableLogged(sb, d0, blk0, d, blk, lo, bn); }
  }

  /** The data block of turn `bn`, and its bitmap block if it was missing. */
  function TurnOwn(sb: Super, d0: Dinode, blk0: seq<Block>, d: Dinode, blk: seq<Block>, bn: nat): (bs: set<nat>)
    requires bn < MAXFILE
    ensures |bs| <= if Slot(d0, blk0, DataSlot(bn)) != 0 then 1 else 2
  {
    var a := Slot(d, blk, DataSlot(bn));
    if Slot(d0, blk0, DataSlot(bn)) != 0 then {a} else {a, sb.BBlock(a)}
  }

  lemma TurnLogWithin(sb: Super, d0: Dinode, blk0: seq<Block>, d: Dinode, blk: seq<Block>, bn: nat)
    requires bn < MAXFILE
    ensures TurnLog(sb, d0, blk0, d, blk, bn)
         <= TurnOwn(sb, d0, blk0, d, blk, bn) + {d.addrs[TABLE], sb.BBlock(d.addrs[TABLE])}
  {
    hide Slot;
  }

  /** A block each, a bitmap block for each that was missing, the table and its bitmap block. */
  lemma {:induction false} TurnSetCost(sb: Super, d0: Dinode, blk0: seq<Block>, d: Dinode, blk: seq<Block>, lo: nat, hi: nat)
    returns (own: set<nat>)
    requires lo <= hi <= MAXFILE
    ensures TurnSet(sb, d0, blk0, d, blk, lo, hi) <= own + {d.addrs[TABLE], sb.BBlock(d.addrs[TABLE])}
    ensures |own| <= 2 * (hi - lo) - if lo < hi && Slot(d0, blk0, DataSlot(lo)) != 0 then 1 else 0
  {
    hide Slot, TurnLog, TurnOwn;
    own := {};
    if lo < hi {
      var rest := TurnSetCost(sb, d0, blk0, d, blk, lo, hi - 1);
      var last := TurnOwn(sb, d0, blk0, d, blk, hi - 1);
      own := rest + last;
      CardUnion(rest, last);
      TurnLogWithin(sb, d0, blk0, d, blk, hi - 1);
    }
  }
}
