/** Counting pages: how many page tables a range of virtual pages lacks, and so how much memory
    setupkvm, allocuvm and copyuvm take. */
module VmCount {
  import opened VmSpec

  predicate InUse(dir: seq<Entry>, i: nat) {
    i < |dir| && dir[i].Map?
  }

  /** Empty slots of directory `dir` among [lo, hi). */
  function Empties(dir: seq<Entry>, lo: nat, hi: nat): (n: nat)
  {
    if hi <= lo then 0 else Empties(dir, lo, hi - 1) + if InUse(dir, hi - 1) then 0 else 1
  }

  /** Page tables missing for the virtual pages [lo, hi). */
  function TabNeed(dir: seq<Entry>, lo: nat, hi: nat): (n: nat)
  {
    if hi <= lo then 0 else Empties(dir, lo / NENT, (hi - 1) / NENT + 1)
  }

  /** Slot `i` serves some page of [lo, hi). */
  predicate Serves(i: nat, lo: nat, hi: nat) {
    lo < hi && lo / NENT <= i <= (hi - 1) / NENT
  }

  predicate TabledAt(dir0: seq<Entry>, dir: seq<Entry>, lo: nat, hi: nat, i: nat)
    requires i < |dir0| && i < |dir|
  {
    if Serves(i, lo, hi) then dir[i].Map? else dir[i] == dir0[i]
  }

  /** From `dir0` to `dir`, the slots of pages [lo, hi) have all got tables and no other changed. */
  predicate Tabled(dir0: seq<Entry>, dir: seq<Entry>, lo: nat, hi: nat) {
    |dir0| == |dir| == NENT && forall i :: 0 <= i < NENT ==> TabledAt(dir0, dir, lo, hi, i)
  }

  /** Whether mapping page `v` needs a table. */
  function Lack(dir: seq<Entry>, v: nat): (n: nat) {
    if InUse(dir, v / NENT) then 0 else 1
  }

  lemma TabNeedOne(dir: seq<Entry>, v: nat)
    ensures TabNeed(dir, v, v + 1) == Lack(dir, v)
  {
    assert Empties(dir, v / NENT, v / NENT) == 0;
  }

  /** The next page lacks what the whole range's need grows by. */
  lemma TabNeedStep(dir0: seq<Entry>, dir: seq<Entry>, lo: nat, x: nat)
    requires lo <= x < TOPPG && Tabled(dir0, dir, lo, x)
    ensures TabNeed(dir0, lo, x + 1) == TabNeed(dir0, lo, x) + Lack(dir, x)
  {
    var i := x / NENT;
    assert TabledAt(dir0, dir, lo, x, i);
    if lo == x {
      TabNeedOne(dir0, x);
    } else {
      assert (x - 1) / NENT == i || (x - 1) / NENT + 1 == i;
      assert lo / NENT <= (x - 1) / NENT;
    }
  }

  lemma SlotSplit(lo: nat, x: nat, i: nat)
    requires lo <= x
    ensures Serves(i, lo, x + 1) <==> Serves(i, lo, x) || i == x / NENT
  {
    if lo < x {
      assert (x - 1) / NENT == x / NENT || (x - 1) / NENT + 1 == x / NENT;
      assert lo / NENT <= (x - 1) / NENT;
    }
  }

  lemma TabledStep(dir0: seq<Entry>, dir: seq<Entry>, dir': seq<Entry>, lo: nat, x: nat)
    requires lo <= x < TOPPG && Tabled(dir0, dir, lo, x) && Tabled(dir, dir', x, x + 1)
    ensures Tabled(dir0, dir', lo, x + 1)
  {
    var hi := x + 1;
    forall i | 0 <= i < NENT ensures TabledAt(dir0, dir', lo, hi, i) {
      assert TabledAt(dir0, dir, lo, x, i) && TabledAt(dir, dir', x, hi, i);
      SlotSplit(lo, x, i);
    }
  }

  lemma TabledSelf(dir: seq<Entry>, v: nat)
    requires |dir| == NENT
    ensures Tabled(dir, dir, v, v)
  {
  }

  lemma {:induction false} EmptiesGrow(dir: seq<Entry>, lo: nat, mid: nat, hi: nat)
    requires mid <= hi
    ensures Empties(dir, lo, mid) <= Empties(dir, lo, hi)
    decreases hi
  {
    if mid < hi { EmptiesGrow(dir, lo, mid, hi - 1); }
  }

  lemma TabNeedGrows(dir: seq<Entry>, lo: nat, mid: nat, hi: nat)
    requires mid <= hi
    ensures TabNeed(dir, lo, mid) <= TabNeed(dir, lo, hi)
  {
    if lo < mid {
      EmptiesGrow(dir, lo / NENT, (mid - 1) / NENT + 1, (hi - 1) / NENT + 1);
    }
  }

  /** Slots up to `mid` are in use and the rest are not. */
  lemma {:induction false} EmptiesAre(dir: seq<Entry>, lo: nat, mid: nat, hi: nat)
    requires lo <= mid <= hi
    requires forall i :: lo <= i < mid ==> InUse(dir, i)
    requires forall i :: mid <= i < hi ==> !InUse(dir, i)
    ensures Empties(dir, lo, hi) == hi - mid
    decreases hi
  {
    if lo < hi {
      if mid < hi { EmptiesAre(dir, lo, mid, hi - 1); } else { EmptiesAre(dir, lo, mid - 1, hi - 1); }
    }
  }

  // ---- the kernel's tables ----

  /** Slots in use once the pages [KERNPG, top) of the kernel's memory are mapped. */
  predicate KernelTabled(dir: seq<Entry>, top: nat) {
    |dir| == NENT && forall i :: 0 <= i < NENT ==> (InUse(dir, i) <==> Serves(i, KERNPG, top))
  }

  /** Tables for the kernel's memory up to `top`. */
  function KernelTabs(top: nat): (n: nat)
    requires KERNPG <= top
  {
    if top == KERNPG then 0 else (top - 1) / NENT + 1 - KERNPG / NENT
  }

  /** The next stretch of kernel memory needs the tables it adds. */
  lemma KernelTabsStep(dir: seq<Entry>, top: nat, top': nat)
    requires KernelTabled(dir, top) && KERNPG <= top < top' <= TOPPG
    ensures TabNeed(dir, top, top') == KernelTabs(top') - KernelTabs(top)
  {
    var lo, hi := top / NENT, (top' - 1) / NENT + 1;
    var mid := if top == KERNPG then lo else (top - 1) / NENT + 1;
    assert lo <= mid <= lo + 1 && mid <= hi;
    EmptiesAre(dir, lo, mid, hi);
  }

  lemma KernelTabledStep(dir: seq<Entry>, dir': seq<Entry>, top: nat, top': nat)
    requires KernelTabled(dir, top) && KERNPG <= top < top' <= TOPPG && Tabled(dir, dir', top, top')
    ensures KernelTabled(dir', top')
  {
    forall i | 0 <= i < NENT ensures InUse(dir', i) <==> Serves(i, KERNPG, top') {
      assert TabledAt(dir, dir', top, top', i);
      assert InUse(dir, i) <==> Serves(i, KERNPG, top);
    }
  }
}
