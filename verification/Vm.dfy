/** vm.c and kalloc.c as code: page tables written in place, with the owner of every page kept
    as ghost state. */
module Vm {
  import opened Blocks
  import opened VmSpec
  import opened VmCount

  datatype Option<T> = None | Some(value: T)

  /** PGROUNDUP in pages: the first page at or above `sz` bytes. */
  function PgUp(sz: nat): (v: nat)
    ensures forall x: nat {:trigger x * PGSIZE} :: x * PGSIZE < sz <==> x < v
  {
    (sz + PGSIZE - 1) / PGSIZE
  }

  // ---- sizes in pages ----

  lemma PgUpAt(sz: nat, a: nat)
    ensures a * PGSIZE < sz <==> a < PgUp(sz)
  {
  }

  lemma PgUpWithin(sz: nat)
    requires sz <= KERNPG * PGSIZE
    ensures PgUp(sz) <= KERNPG
  {
  }

  lemma PgUpStrict(oldsz: nat, newsz: nat)
    requires PgUp(oldsz) < PgUp(newsz)
    ensures oldsz < newsz
  {
  }

  lemma PgUpSpan(oldsz: nat, newsz: nat)
    requires oldsz <= newsz < KERNPG * PGSIZE
    ensures PgUp(oldsz) <= PgUp(newsz) <= KERNPG
  {
  }

  lemma PgUpBounds(newsz: nat, oldsz: nat)
    requires newsz < oldsz <= KERNPG * PGSIZE
    ensures PgUp(newsz) <= PgUp(oldsz) <= KERNPG
    ensures PgUp(newsz) * PGSIZE < oldsz <==> PgUp(newsz) < PgUp(oldsz)
  {
  }

  lemma PgUpWhole()
    ensures PgUp(0) == 0 && PgUp(KERNPG * PGSIZE) == KERNPG
  {
  }

  // ---- what a step leaves alone ----

  /** Mappings are unchanged but for pages `lo` to `hi` of directory `d`. */
  ghost predicate SameMaps(m: Mem, m': Mem, d: nat, lo: nat, hi: nat) {
    forall e: nat, v: nat :: !(e == d && lo <= v < hi) ==> Lookup(m', e, v) == Lookup(m, e, v)
  }

  lemma SameMapsTwice(m: Mem, m1: Mem, m2: Mem, d: nat, lo: nat, mid: nat, hi: nat)
    requires SameMaps(m, m1, d, lo, mid) && SameMaps(m1, m2, d, mid, hi) && lo <= mid <= hi
    ensures SameMaps(m, m2, d, lo, hi)
  {
    forall e: nat, v: nat | !(e == d && lo <= v < hi) ensures Lookup(m2, e, v) == Lookup(m, e, v) {
      assert Lookup(m1, e, v) == Lookup(m, e, v);
    }
  }

  lemma SameMapsWider(m: Mem, m': Mem, d: nat, lo: nat, mid: nat, hi: nat)
    requires SameMaps(m, m', d, lo, mid) && lo <= mid <= hi
    ensures SameMaps(m, m', d, lo, hi)
  {
    hide Lookup;
  }

  lemma SameTables(m: Mem, m': Mem, e: nat, v: nat)
    requires m'.dirs == m.dirs && m'.tabs == m.tabs
    ensures Lookup(m', e, v) == Lookup(m, e, v)
  {
  }

  lemma SameTablesAll(m: Mem, m': Mem)
    requires m'.dirs == m.dirs && m'.tabs == m.tabs
    ensures forall e: nat, v: nat :: Lookup(m', e, v) == Lookup(m, e, v)
  {
  }

  lemma SameMapsTables(m1: Mem, m2: Mem, m3: Mem, d: nat, lo: nat, hi: nat)
    requires SameMaps(m1, m2, d, lo, hi) && m3.dirs == m2.dirs && m3.tabs == m2.tabs
    requires forall v :: lo <= v < hi ==> !Lookup(m2, d, v).Map?
    ensures SameMaps(m1, m3, d, lo, hi) && forall v :: lo <= v < hi ==> !Lookup(m3, d, v).Map?
  {
    forall e: nat, v: nat ensures Lookup(m3, e, v) == Lookup(m2, e, v) {
      SameTables(m2, m3, e, v);
    }
  }

  /** User pages that keep their owner keep their contents. */
  ghost predicate KeepBytes(m: Mem, m': Mem, own: Owners, own': Owners) {
    forall p :: p in own && p in own' && own[p].User? && own'[p] == own[p] && p in m.bytes ==>
      p in m'.bytes && m'.bytes[p] == m.bytes[p]
  }

  lemma KeepBytesSelf(m: Mem, own: Owners)
    ensures KeepBytes(m, m, own, own)
  {
  }

  lemma KeepBytesSame(m: Mem, m': Mem, own: Owners, own': Owners)
    requires m'.bytes == m.bytes
    ensures KeepBytes(m, m', own, own')
  {
  }

  lemma KeepBytesTwice(m: Mem, m1: Mem, m2: Mem, own: Owners, own1: Owners, own2: Owners, d: nat, hand: nat)
    requires KeepBytes(m, m1, own, own1) && KeepBytes(m1, m2, own1, own2) && Grew(own, own1, d, hand)
    requires hand in own ==> !own[hand].User?
    ensures KeepBytes(m, m2, own, own2)
  {
    forall p | p in own && p in own2 && own[p].User? && own2[p] == own[p] && p in m.bytes
      ensures p in m2.bytes && m2.bytes[p] == m.bytes[p]
    {
      assert GrewAt(own, own1, d, p);
    }
  }

  lemma GrewSelf(own: Owners, d: nat, hand: nat)
    ensures Grew(own, own, d, hand)
  {
  }

  lemma NoPageZero(m: Mem, own: Owners)
    requires Good(m, own)
    ensures 0 !in own
  {
    hide FreeOk, DirsOk, TabsOk, UsersOk;
  }

  lemma GrewLoose(own: Owners, own1: Owners, d: nat, p: nat)
    requires Grew(own, own1, d, 0) && 0 !in own
    ensures Grew(own, own1, d, p)
    ensures p in own && own[p] == Loose ==> p in own1 && own1[p] == Loose
  {
    assert p in own ==> GrewAt(own, own1, d, p);
  }

  lemma GrewHand(own: Owners, own1: Owners, d: nat, p: nat, x: Owner)
    requires Grew(own, own1, d, p) && p in own1
    ensures Grew(own, own1[p := x], d, p)
  {
    forall q | q in own && q != p ensures GrewAt(own, own1[p := x], d, q) {
      assert GrewAt(own, own1, d, q);
    }
  }

  lemma HandBytes(m0: Mem, own0: Owners, m1: Mem, own1: Owners, m: Mem, own: Owners, c: nat, p: nat)
    requires KeepBytes(m0, m1, own0, own1) && Grew(own0, own1, c, 0) && 0 !in own0
    requires p in own1 && own1[p] == Free && p in m.bytes && m.bytes == m1.bytes[p := m.bytes[p]]
    ensures KeepBytes(m0, m, own0, own)
  {
    forall q | q in own0 && q in own && own0[q].User? && own[q] == own0[q] && q in m0.bytes
      ensures q in m.bytes && m.bytes[q] == m0.bytes[q]
    {
      assert GrewAt(own0, own1, c, q);
    }
  }

  lemma DirectoryFacts(m: Mem, own: Owners, d: nat)
    requires Good(m, own) && d in m.dirs
    ensures d in own && own[d] == Dir && |m.dirs[d]| == NENT
  {
    hide FreeOk, TabsOk, UsersOk;
    assert DirOk(m, own, d);
  }

  lemma NoDirectory(m: Mem, d: nat, v: nat)
    requires d !in m.dirs
    ensures Lookup(m, d, v) == Zero
  {
  }

  lemma ContentsSet(m: Mem, own: Owners, p: nat, b: Page)
    requires Good(m, own) && p in own && own[p] == Loose
    ensures Good(m.(bytes := m.bytes[p := b]), own)
  {
    hide TabsOk, UsersOk, DirsOk, FreeOk;
    assert own[p := Loose] == own;
    LooseChanged(m, own, p, Loose, m.(bytes := m.bytes[p := b]));
  }

  lemma GiveGood(m: Mem, own: Owners, p: nat)
    requires Good(m, own) && p in own && own[p] == Loose
    ensures Good(Give(m, p), own[p := Free])
  {
    hide TabsOk, UsersOk, DirsOk;
    FreeGiven(m.freelist, own, p);
    LooseChanged(m, own, p, Free, Give(m, p));
  }

  /** What walkpgdir finds is what the hardware would. */
  lemma EntryIsLookup(m: Mem, own: Owners, d: nat, v: nat)
    requires Good(m, own) && d in m.dirs
    ensures Lookup(m, d, v) == if HasTab(m, d, v) then m.tabs[m.dirs[d][v / NENT].page][v % NENT] else Zero
  {
    if v / NENT < |m.dirs[d]| { assert TabRef(m, own, d, v / NENT); }
  }

  // ---- mappages ----

  /** mappages has mapped `k` pages from `v` since the state `m0`, and taken only tables. */
  ghost predicate Mapping(m0: Mem, own0: Owners, m: Mem, own: Owners, d: nat, v: nat, k: nat, pa: nat, w: bool, u: bool) {
    && d in m0.dirs && m.dirs.Keys == m0.dirs.Keys && SameMaps(m0, m, d, v, v + k)
    && (forall x :: v <= x < v + k ==> Lookup(m, d, x) == Map(pa + (x - v), w, u))
    && Grew(own0, own, d, if v < KERNPG then pa else 0)
    && (v < KERNPG ==> pa in own && own[pa] == User(d, v))
    && Tabled(m0.dirs[d], m.dirs[d], v, v + k) && |m.freelist| == |m0.freelist| - TabNeed(m0.dirs[d], v, v + k)
  }

  lemma MappingParts(m0: Mem, own0: Owners, m: Mem, own: Owners, d: nat, v: nat, k: nat, pa: nat, w: bool, u: bool)
    requires Mapping(m0, own0, m, own, d, v, k, pa, w, u)
    ensures d in m0.dirs && m.dirs.Keys == m0.dirs.Keys && SameMaps(m0, m, d, v, v + k)
    ensures forall x :: v <= x < v + k ==> Lookup(m, d, x) == Map(pa + (x - v), w, u)
    ensures Grew(own0, own, d, if v < KERNPG then pa else 0)
    ensures v < KERNPG ==> pa in own && own[pa] == User(d, v)
    ensures Tabled(m0.dirs[d], m.dirs[d], v, v + k) && |m.freelist| == |m0.freelist| - TabNeed(m0.dirs[d], v, v + k)
  {
  }

  lemma MappingOne(m0: Mem, own0: Owners, m: Mem, own: Owners, d: nat, v: nat, pa: nat, w: bool, u: bool)
    requires d in m0.dirs && m.dirs.Keys == m0.dirs.Keys && SameMaps(m0, m, d, v, v + 1) && Lookup(m, d, v) == Map(pa, w, u)
    requires Grew(own0, own, d, if v < KERNPG then pa else 0) && (v < KERNPG ==> pa in own && own[pa] == User(d, v))
    requires Tabled(m0.dirs[d], m.dirs[d], v, v + 1) && |m.freelist| == |m0.freelist| - TabNeed(m0.dirs[d], v, v + 1)
    ensures Mapping(m0, own0, m, own, d, v, 1, pa, w, u)
  {
    hide Lookup, SameMaps, Grew, Tabled, TabNeed;
  }

  /** The next page is not mapped, and lacks what the need grows by. */
  lemma MappingNext(m0: Mem, own0: Owners, m: Mem, own: Owners, d: nat, v: nat, k: nat, pa: nat, w: bool, u: bool)
    requires Mapping(m0, own0, m, own, d, v, k, pa, w, u) && v + k < TOPPG && !Lookup(m0, d, v + k).Map?
    ensures !Lookup(m, d, v + k).Map? && d in m.dirs && d in m0.dirs && |m.freelist| == |m0.freelist| - TabNeed(m0.dirs[d], v, v + k)
    ensures TabNeed(m0.dirs[d], v, v + k + 1) == TabNeed(m0.dirs[d], v, v + k) + Lack(m.dirs[d], v + k)
  {
    hide Lookup, Grew, Tabled, TabNeed, Lack;
    TabNeedStep(m0.dirs[d], m.dirs[d], v, v + k);
  }

  lemma MappingMore(m0: Mem, own0: Owners, m1: Mem, own1: Owners, m: Mem, own: Owners, d: nat, v: nat, k: nat, pa: nat, w: bool, u: bool)
    requires Mapping(m0, own0, m1, own1, d, v, k, pa, w, u) && KERNPG <= v && v + k < TOPPG
    requires m.dirs.Keys == m1.dirs.Keys && SameMaps(m1, m, d, v + k, v + k + 1) && Lookup(m, d, v + k) == Map(pa + k, w, u)
    requires Grew(own1, own, d, 0) && d in m1.dirs && Tabled(m1.dirs[d], m.dirs[d], v + k, v + k + 1)
    requires |m.freelist| == |m1.freelist| - Lack(m1.dirs[d], v + k)
    requires TabNeed(m0.dirs[d], v, v + k + 1) == TabNeed(m0.dirs[d], v, v + k) + Lack(m1.dirs[d], v + k)
    ensures Mapping(m0, own0, m, own, d, v, k + 1, pa, w, u)
  {
    hide Lookup, Grew, Tabled, TabNeed, Lack;
    SameMapsTwice(m0, m1, m, d, v, v + k, v + k + 1);
    GrewTwice(own0, own1, own, d, 0);
    TabledStep(m0.dirs[d], m1.dirs[d], m.dirs[d], v, v + k);
  }

  lemma MappingFailed(m0: Mem, own0: Owners, m1: Mem, own1: Owners, m: Mem, own: Owners, d: nat, v: nat, k: nat, pa: nat, w: bool, u: bool, n: nat)
    requires Mapping(m0, own0, m1, own1, d, v, k, pa, w, u) && KERNPG <= v && k < n
    requires m.dirs.Keys == m1.dirs.Keys && SameMaps(m1, m, d, v + k, v + k + 1) && Grew(own1, own, d, 0)
    ensures m.dirs.Keys == m0.dirs.Keys && SameMaps(m0, m, d, v, v + n) && Grew(own0, own, d, 0)
  {
    hide Lookup, Grew, Tabled, TabNeed;
    SameMapsTwice(m0, m1, m, d, v, v + k, v + k + 1);
    SameMapsWider(m0, m, d, v, v + k + 1, v + n);
    GrewTwice(own0, own1, own, d, 0);
  }

  // ---- deallocuvm and freevm ----

  lemma ReleasedNone(own: Owners, d: nat, lo: nat)
    ensures Released(own, d, lo, lo) == own
  {
  }

  /** Where there is no page table nothing is mapped, up to the next directory slot. */
  lemma NoTable(m0: Mem, own0: Owners, m1: Mem, own1: Owners, d: nat, lo: nat, a: nat, b: nat)
    requires Good(m0, own0) && Good(m1, own1) && m1.dirs == m0.dirs && d in m0.dirs && lo <= a < b == (a / NENT + 1) * NENT
    requires !HasTab(m1, d, a) && a < KERNPG && SameMaps(m0, m1, d, lo, a) && own1 == Released(own0, d, lo, a)
    requires |m0.dirs[d]| == NENT && !m0.dirs[d][a / NENT].Map?
    ensures b <= KERNPG && SameMaps(m0, m1, d, lo, b) && own1 == Released(own0, d, lo, b)
    ensures forall x :: a <= x < b ==> !Lookup(m0, d, x).Map? && !Lookup(m1, d, x).Map?
  {
    forall x | a <= x < b ensures !Lookup(m0, d, x).Map? && !Lookup(m1, d, x).Map? {
      assert x / NENT == a / NENT;
    }
    forall p | p in own0 ensures Released(own0, d, lo, b)[p] == Released(own0, d, lo, a)[p] {
      assert UserBack(m0, own0, p);
    }
  }

  lemma ReleasedOne(m0: Mem, own0: Owners, m1: Mem, own1: Owners, d: nat, lo: nat, a: nat)
    requires Good(m0, own0) && Good(m1, own1) && SameMaps(m0, m1, d, lo, a) && own1 == Released(own0, d, lo, a)
    requires lo <= a < KERNPG && Lookup(m1, d, a).Map?
    ensures var p := Lookup(m1, d, a).page; p in own1 && own1[p := Free] == Released(own0, d, lo, a + 1)
  {
    hide FreeOk, DirsOk, TabsOk;
    assert UserRef(m1, own1, d, a) && Lookup(m0, d, a) == Lookup(m1, d, a);
    var p := Lookup(m1, d, a).page;
    forall q | q in own0 ensures own1[p := Free][q] == Released(own0, d, lo, a + 1)[q] {
      assert UserBack(m0, own0, q);
    }
  }

  lemma NotMapped(m0: Mem, own0: Owners, m1: Mem, own1: Owners, d: nat, lo: nat, a: nat)
    requires Good(m0, own0) && SameMaps(m0, m1, d, lo, a) && own1 == Released(own0, d, lo, a)
    requires lo <= a < KERNPG && !Lookup(m1, d, a).Map?
    ensures own1 == Released(own0, d, lo, a + 1) && SameMaps(m0, m1, d, lo, a + 1) && !Lookup(m0, d, a).Map?
  {
    hide FreeOk, DirsOk, TabsOk;
    assert Lookup(m0, d, a) == Lookup(m1, d, a);
    forall q | q in own0 ensures own1[q] == Released(own0, d, lo, a + 1)[q] {
      assert UserBack(m0, own0, q);
    }
  }

  lemma KeepBytesFreed(m0: Mem, m1: Mem, m2: Mem, own0: Owners, own1: Owners, own2: Owners, p: nat)
    requires KeepBytes(m0, m1, own0, own1) && p in own1 && own1[p].User? && own2 == own1[p := Free]
    requires m2.bytes == m1.bytes[p := JunkPage()]
    requires forall q :: q in own0 && q in own1 && own0[q].User? && own2[q] == own0[q] ==> own1[q] == own0[q]
    ensures KeepBytes(m0, m2, own0, own2)
  {
  }

  /** The loop may stop beyond `hi`, where nothing was mapped. */
  lemma Overshoot(m0: Mem, own0: Owners, m: Mem, d: nat, lo: nat, hi: nat, a: nat)
    requires Good(m0, own0) && lo <= hi <= a <= KERNPG && SameMaps(m0, m, d, lo, a)
    requires (forall x :: hi <= x < a ==> !Lookup(m0, d, x).Map?) && forall x :: lo <= x < a ==> !Lookup(m, d, x).Map?
    ensures SameMaps(m0, m, d, lo, hi) && Released(own0, d, lo, a) == Released(own0, d, lo, hi)
  {
    hide FreeOk, DirsOk, TabsOk;
    forall p | p in own0 ensures Released(own0, d, lo, a)[p] == Released(own0, d, lo, hi)[p] {
      assert UserBack(m0, own0, p);
    }
    forall e: nat, v: nat | !(e == d && lo <= v < hi) ensures Lookup(m, e, v) == Lookup(m0, e, v) {
      if e == d && hi <= v < a {
        assert !Lookup(m0, d, v).Map? && !Lookup(m, d, v).Map?;
      }
    }
  }

  /** The pages of a detached directory: tables of slots below `i` are free, the rest loose. */
  ghost function FreedTo(own: Owners, d: nat, i: nat): (r: Owners) {
    map p | p in own :: if own[p].Tab? && own[p].d == d && own[p].i < i then Free
                        else if Belongs(own, d, p) then Loose else own[p]
  }

  lemma DetachedTo(own: Owners, d: nat)
    ensures Detached(own, d) == FreedTo(own, d, 0)
  {
  }

  lemma TableFacts(m: Mem, own: Owners, d: nat, i: nat)
    requires Good(m, own) && d in m.dirs && i < NENT && |m.dirs[d]| == NENT
    ensures var e := m.dirs[d][i];
            if e.Map? then
              e.page in FreedTo(own, d, i) && FreedTo(own, d, i)[e.page] == Loose && FreedTo(own, d, i)[e.page := Free] == FreedTo(own, d, i + 1)
            else FreedTo(own, d, i) == FreedTo(own, d, i + 1)
  {
    hide FreeOk, UsersOk;
    assert TabRef(m, own, d, i);
    forall p | p in own && own[p] == Tab(d, i) ensures m.dirs[d][i].Map? && m.dirs[d][i].page == p {
      assert TabBack(m, own, p);
    }
  }

  lemma FreedToEnd(m0: Mem, own0: Owners, m1: Mem, own1: Owners, d: nat)
    requires Good(m0, own0) && Good(m1, own1) && own1 == Released(own0, d, 0, KERNPG) && d in m1.dirs
    ensures d in own1 && FreedTo(own1, d, NENT)[d] == Loose && FreedTo(own1, d, NENT)[d := Free] == Freed(own0, d)
  {
    hide FreeOk;
    assert DirOk(m1, own1, d);
    forall p | p in own0 ensures FreedTo(own1, d, NENT)[d := Free][p] == Freed(own0, d)[p] {
      assert TabBack(m1, own1, p) && UserBack(m0, own0, p) && DirOk(m1, own1, if own1[p].Tab? then own1[p].d else d);
    }
  }

  lemma KeepBytesDetached(m0: Mem, m1: Mem, m2: Mem, own0: Owners, own1: Owners, d: nat)
    requires KeepBytes(m0, m1, own0, own1) && m2.bytes == m1.bytes
    ensures KeepBytes(m0, m2, own0, Detached(own1, d))
  {
  }

  lemma KeepBytesLoose(m0: Mem, m1: Mem, m2: Mem, own0: Owners, own1: Owners, p: nat)
    requires KeepBytes(m0, m1, own0, own1) && p in own1 && own1[p] == Loose && m2.bytes == m1.bytes[p := JunkPage()]
    ensures KeepBytes(m0, m2, own0, own1[p := Free])
  {
  }

  // ---- the kernel's mappings ----

  const KERNLINK := 0x80100
  const DEVPG := 0xFE000
  const NKMAP := 4

  datatype Kmap = Kmap(virt: nat, phys: nat, n: nat, w: bool)

  /** kmap[]: I/O space, kernel text, kernel data and memory, devices; `data` is where the
      kernel's writable data starts. */
  function Kmaps(data: nat): (r: seq<Kmap>)
    requires KERNLINK < data < KERNPG + PHYSPG
    ensures |r| == NKMAP
  {
    [Kmap(KERNPG, 0, KERNLINK - KERNPG, true),
     Kmap(KERNLINK, KERNLINK - KERNPG, data - KERNLINK, false),
     Kmap(data, data - KERNPG, KERNPG + PHYSPG - data, true),
     Kmap(DEVPG, DEVPG, TOPPG - DEVPG, true)]
  }

  function KmapStart(data: nat, k: nat): (v: nat)
    requires KERNLINK < data < KERNPG + PHYSPG
  {
    if k < NKMAP then Kmaps(data)[k].virt else TOPPG
  }

  /** The regions are non-empty, in the kernel half, in order and do not overlap. */
  lemma KmapsShape(data: nat)
    requires KERNLINK < data < KERNPG + PHYSPG
    ensures forall k :: 0 <= k < NKMAP ==> Kmaps(data)[k].n > 0 && Kmaps(data)[k].virt >= KERNPG
    ensures KmapStart(data, 0) == KERNPG
  {
  }

  lemma KmapRoom(data: nat, k: nat)
    requires KERNLINK < data < KERNPG + PHYSPG && k < NKMAP
    ensures KmapStart(data, k) == Kmaps(data)[k].virt
    ensures KmapStart(data, k) < Kmaps(data)[k].virt + Kmaps(data)[k].n <= KmapStart(data, k + 1) <= TOPPG
  {
  }

  /** The first `k` kernel regions are mapped as kmap[] says. */
  ghost predicate KernelMapped(m: Mem, d: nat, data: nat, k: nat)
    requires KERNLINK < data < KERNPG + PHYSPG && k <= NKMAP
  {
    forall j: nat, v: nat :: j < k && Kmaps(data)[j].virt <= v < Kmaps(data)[j].virt + Kmaps(data)[j].n ==>
      Lookup(m, d, v) == Map(Kmaps(data)[j].phys + (v - Kmaps(data)[j].virt), Kmaps(data)[j].w, false)
  }

  lemma KernelNone(m: Mem, d: nat, data: nat)
    requires KERNLINK < data < KERNPG + PHYSPG
    ensures KernelMapped(m, d, data, 0)
  {
  }

  lemma KernelMore(m: Mem, m': Mem, d: nat, data: nat, k: nat)
    requires KERNLINK < data < KERNPG + PHYSPG && k < NKMAP && KernelMapped(m, d, data, k)
    requires var x := Kmaps(data)[k];
             SameMaps(m, m', d, x.virt, x.virt + x.n)
             && forall v :: x.virt <= v < x.virt + x.n ==> Lookup(m', d, v) == Map(x.phys + (v - x.virt), x.w, false)
    ensures KernelMapped(m', d, data, k + 1)
  {
    hide Lookup;
  }

  lemma NewDirectory(m0: Mem, own0: Owners, m: Mem, own: Owners, d: nat)
    requires Good(m0, own0) && Good(m, own) && d in own0 && own0[d] == Free && own == own0[d := Loose]
    requires m.dirs == m0.dirs && m.tabs == m0.tabs
    ensures Good(AddDir(m, d), own[d := Dir]) && d !in m0.dirs && Grew(own0, own[d := Dir], d, 0)
    ensures forall e: nat, v: nat :: Lookup(AddDir(m, d), e, v) == Lookup(m0, e, v)
    ensures forall v: nat :: !Lookup(AddDir(m, d), d, v).Map?
  {
    AddDirGood(m, own, d);
    assert forall p :: p in own0 ==> GrewAt(own0, own[d := Dir], d, p);
  }

  // ---- memory for the kernel's mappings ----

  /** Tables of every kernel directory: 56 for the kernel's memory and 8 for the devices. */
  const KERNTABS := PHYSPG / NENT + (TOPPG - DEVPG) / NENT

  /** Pages of a directory without user pages. */
  const KERNDIR := 1 + KERNTABS

  /** Where region `k` starts in the kernel's memory, which regions 0 to 2 fill without gaps. */
  function Kend(data: nat, k: nat): (v: nat) {
    if k == 0 then KERNPG else if k == 1 then KERNLINK else if k == 2 then data else KERNPG + PHYSPG
  }

  /** Tables the first `k` regions take. */
  function KernelNeed(data: nat, k: nat): (n: nat)
    requires KERNLINK < data < KERNPG + PHYSPG && k <= NKMAP
  {
    if k < NKMAP then KernelTabs(Kend(data, k)) else KERNTABS
  }

  /** No slot of the user half is in use. */
  predicate UserEmpty(dir: seq<Entry>) {
    |dir| == NENT && forall i :: 0 <= i < KERNPG / NENT ==> !InUse(dir, i)
  }

  /** Directory slots once the first `k` regions are mapped. */
  predicate KernelSlots(dir: seq<Entry>, data: nat, k: nat) {
    if k < NKMAP then KernelTabled(dir, Kend(data, k)) else UserEmpty(dir)
  }

  lemma KernelNeedEnds(data: nat)
    requires KERNLINK < data < KERNPG + PHYSPG
    ensures KernelNeed(data, 0) == 0 && KernelNeed(data, NKMAP) == KERNTABS
  {
  }

  lemma KernelSlotsNone(data: nat)
    ensures KernelSlots(NoEntries(), data, 0)
  {
  }

  lemma KernelSlotsEnd(dir: seq<Entry>, data: nat)
    requires KernelSlots(dir, data, NKMAP)
    ensures UserEmpty(dir)
  {
  }

  lemma DeviceTabs(dir: seq<Entry>)
    requires KernelTabled(dir, KERNPG + PHYSPG)
    ensures TabNeed(dir, DEVPG, TOPPG) == (TOPPG - DEVPG) / NENT
  {
    EmptiesAre(dir, DEVPG / NENT, DEVPG / NENT, TOPPG / NENT);
  }

  lemma KernelNeedStep(dir: seq<Entry>, data: nat, k: nat)
    requires KERNLINK < data < KERNPG + PHYSPG && k < NKMAP && KernelSlots(dir, data, k)
    ensures var x := Kmaps(data)[k];
            TabNeed(dir, x.virt, x.virt + x.n) == KernelNeed(data, k + 1) - KernelNeed(data, k)
    ensures KernelNeed(data, k + 1) <= KERNTABS
  {
    hide TabNeed;
    if k < 3 {
      KernelTabsStep(dir, Kend(data, k), Kend(data, k + 1));
    } else {
      DeviceTabs(dir);
    }
  }

  lemma KernelSlotsStep(dir: seq<Entry>, dir': seq<Entry>, data: nat, k: nat)
    requires KERNLINK < data < KERNPG + PHYSPG && k < NKMAP && KernelSlots(dir, data, k)
    requires var x := Kmaps(data)[k]; Tabled(dir, dir', x.virt, x.virt + x.n)
    ensures KernelSlots(dir', data, k + 1)
  {
    if k < 3 {
      KernelTabledStep(dir, dir', Kend(data, k), Kend(data, k + 1));
    } else {
      forall i | 0 <= i < KERNPG / NENT ensures !InUse(dir', i) {
        assert TabledAt(dir, dir', DEVPG, TOPPG, i);
        assert InUse(dir, i) <==> Serves(i, KERNPG, KERNPG + PHYSPG);
      }
    }
  }

  // ---- allocuvm ----

  ghost predicate FreshAt(m: Mem, d: nat, v: nat) {
    var e := Lookup(m, d, v);
    e.Map? && e.w && e.u && e.page in m.bytes && m.bytes[e.page] == ZeroPage()
  }

  /** Pages `lo` to `hi` of directory `d` are mapped for the user to pages of zeros. */
  ghost predicate AllFresh(m: Mem, d: nat, lo: nat, hi: nat) {
    forall v :: lo <= v < hi ==> FreshAt(m, d, v)
  }

  /** allocuvm has mapped pages `lo` to `a` since the state `m0`. */
  ghost predicate Growing(m0: Mem, own0: Owners, m: Mem, own: Owners, d: nat, lo: nat, a: nat) {
    && Good(m0, own0) && m.dirs.Keys == m0.dirs.Keys && SameMaps(m0, m, d, lo, a) && AllFresh(m, d, lo, a)
    && Grew(own0, own, d, 0) && KeepBytes(m0, m, own0, own)
  }

  lemma AllocStart(m: Mem, own: Owners, d: nat, lo: nat)
    requires Good(m, own)
    ensures Growing(m, own, m, own, d, lo, lo)
  {
    hide Good;
  }

  lemma GrowingUnmapped(m0: Mem, own0: Owners, m: Mem, own: Owners, d: nat, lo: nat, a: nat)
    requires Growing(m0, own0, m, own, d, lo, a) && !Lookup(m0, d, a).Map?
    ensures !Lookup(m, d, a).Map? && m.dirs.Keys == m0.dirs.Keys
  {
    hide Good, Lookup;
  }

  lemma GrowingMore(m0: Mem, own0: Owners, m1: Mem, own1: Owners, m2: Mem, m: Mem, own: Owners, d: nat, lo: nat, a: nat, p: nat)
    requires Growing(m0, own0, m1, own1, d, lo, a) && Good(m1, own1) && lo <= a < KERNPG && p in own1 && own1[p] == Free
    requires m2.dirs == m1.dirs && m2.tabs == m1.tabs && m2.bytes == m1.bytes[p := ZeroPage()] && m.bytes == m2.bytes
    requires m.dirs.Keys == m2.dirs.Keys && SameMaps(m2, m, d, a, a + 1) && Lookup(m, d, a) == Map(p, true, true)
    requires Grew(own1[p := Loose], own, d, p) && own[p] == User(d, a)
    ensures Growing(m0, own0, m, own, d, lo, a + 1)
  {
    NoPageZero(m0, own0);
    hide FreeOk, DirsOk, TabsOk, Lookup;
    SameTablesAll(m1, m2);
    GrewByHand(own0, own1, own, d, p);
    forall v | lo <= v < a + 1 ensures FreshAt(m, d, v) {
      if v < a {
        assert FreshAt(m1, d, v) && UserRef(m1, own1, d, v);
      }
    }
    HandBytes(m0, own0, m1, own1, m, own, d, p);
    SameMapsTwice(m0, m1, m, d, lo, a, a + 1);
  }

  lemma GrowingFailed(m0: Mem, own0: Owners, m1: Mem, own1: Owners, m2: Mem, m: Mem, own: Owners, d: nat, lo: nat, a: nat, p: nat)
    requires Growing(m0, own0, m1, own1, d, lo, a) && Good(m1, own1) && lo <= a < KERNPG && p in own1 && own1[p] == Free
    requires m2.dirs == m1.dirs && m2.tabs == m1.tabs && m2.bytes == m1.bytes[p := ZeroPage()] && m.bytes == m2.bytes
    requires m.dirs.Keys == m2.dirs.Keys && SameMaps(m2, m, d, a, a + 1) && Lookup(m, d, a) == Lookup(m2, d, a)
    requires Grew(own1[p := Loose], own, d, p) && own[p] == Loose
    ensures p in own && Growing(m0, own0, m, own[p := Free], d, lo, a)
  {
    NoPageZero(m0, own0);
    hide FreeOk, DirsOk, TabsOk, Lookup;
    SameTablesAll(m1, m2);
    GrewHand(own1[p := Loose], own, d, p, Free);
    GrewByHand(own0, own1, own[p := Free], d, p);
    forall v | lo <= v < a ensures FreshAt(m, d, v) {
      assert FreshAt(m1, d, v) && UserRef(m1, own1, d, v);
    }
    HandBytes(m0, own0, m1, own1, m, own[p := Free], d, p);
    forall e: nat, v: nat | !(e == d && lo <= v < a) ensures Lookup(m, e, v) == Lookup(m0, e, v) {
      assert Lookup(m2, e, v) == Lookup(m1, e, v);
    }
  }

  lemma ReleasedHand(own: Owners, d: nat, lo: nat, hi: nat, p: nat)
    requires p in own && own[p] == Loose
    ensures p in Released(own, d, lo, hi) && Released(own, d, lo, hi)[p] == Loose
    ensures Released(own, d, lo, hi)[p := Free] == Released(own[p := Free], d, lo, hi)
  {
  }

  lemma KeepBytesHand(m1: Mem, m2: Mem, m3: Mem, own1: Owners, own2: Owners, p: nat)
    requires KeepBytes(m1, m2, own1, own2) && p in own1 && own1[p] == Loose && p in own2
    requires m3.bytes == m2.bytes[p := JunkPage()]
    ensures KeepBytes(m1, m3, own1[p := Free], own2[p := Free])
  {
  }

  /** Unmapping everything allocuvm may have mapped restores the mappings of `m0`. */
  lemma UndoFacts(m0: Mem, own0: Owners, m1: Mem, own1: Owners, m: Mem, own: Owners, d: nat, lo: nat, hi: nat, a: nat)
    requires Growing(m0, own0, m1, own1, d, lo, a) && lo <= a <= hi <= KERNPG && own == Released(own1, d, lo, hi)
    requires forall v :: lo <= v < hi ==> !Lookup(m0, d, v).Map?
    requires forall v :: lo <= v < hi ==> !Lookup(m, d, v).Map?
    requires SameMaps(m1, m, d, lo, hi) && KeepBytes(m1, m, own1, own)
    ensures SameMaps(m0, m, d, 0, 0) && Grew(own0, own, d, 0) && KeepBytes(m0, m, own0, own)
  {
    hide Good, Lookup, KeepBytes, Grew, AllFresh, Released;
    forall e: nat, v: nat ensures Lookup(m, e, v) == Lookup(m0, e, v) {
      if e == d && lo <= v < hi {
        assert Lookup(m0, d, v) == Zero && Lookup(m, d, v) == Zero;
      } else {
        assert Lookup(m, e, v) == Lookup(m1, e, v);
      }
    }
    GrewReleased(m0, own0, own1, d, lo, hi);
    NoPageZero(m0, own0);
    KeepBytesTwice(m0, m1, m, own0, own1, own, d, 0);
  }

  /** Pages and tables that mapping the pages [lo, hi) takes. */
  function GrowNeed(dir: seq<Entry>, lo: nat, hi: nat): (n: nat) {
    if hi <= lo then 0 else hi - lo + TabNeed(dir, lo, hi)
  }

  lemma GrowNeedStart(m: Mem, own: Owners, d: nat, lo: nat)
    requires Good(m, own) && d in m.dirs
    ensures GrowNeed(m.dirs[d], lo, lo) == 0 && Tabled(m.dirs[d], m.dirs[d], lo, lo)
  {
    DirectoryFacts(m, own, d);
    TabledSelf(m.dirs[d], lo);
  }

  lemma GrowNeedStep(dir0: seq<Entry>, dir: seq<Entry>, lo: nat, a: nat, hi: nat)
    requires lo <= a < hi <= TOPPG && Tabled(dir0, dir, lo, a)
    ensures GrowNeed(dir0, lo, a + 1) == GrowNeed(dir0, lo, a) + 1 + Lack(dir, a)
    ensures TabNeed(dir, a, a + 1) == Lack(dir, a)
    ensures GrowNeed(dir0, lo, a + 1) <= GrowNeed(dir0, lo, hi)
  {
    TabNeedOne(dir, a);
    TabNeedStep(dir0, dir, lo, a);
    TabNeedGrows(dir0, lo, a + 1, hi);
  }

  // ---- copyuvm ----

  datatype CopyResult = Copy(dir: nat) | NoMemory | Panic

  /** The page of `c` at `v` is a copy of the page of `d` there: same flags and bytes, another page. */
  ghost predicate Copied(m0: Mem, m: Mem, d: nat, c: nat, v: nat) {
    var (e, f) := (Lookup(m0, d, v), Lookup(m, c, v));
    && e.Map? && f.Map? && f.w == e.w && f.u == e.u && f.page != e.page
    && e.page in m0.bytes && f.page in m.bytes && m.bytes[f.page] == m0.bytes[e.page]
  }

  /** Directory `c`, made since the state `m0` from free pages, has copies of the first `i` user
      pages of `d` and no other user page; nothing else has changed. */
  ghost predicate Copying(m0: Mem, own0: Owners, m: Mem, own: Owners, d: nat, c: nat, i: nat) {
    && Good(m0, own0) && d in m0.dirs && c in own0 && own0[c] == Free && m.dirs.Keys == m0.dirs.Keys + {c}
    && (forall e: nat, v: nat :: e != c ==> Lookup(m, e, v) == Lookup(m0, e, v))
    && Grew(own0, own, c, 0) && KeepBytes(m0, m, own0, own)
    && (forall v: nat :: v < i ==> Copied(m0, m, d, c, v))
    && (forall v: nat :: i <= v < KERNPG ==> !Lookup(m, c, v).Map?)
  }

  lemma CopyStart(m0: Mem, own0: Owners, m: Mem, own: Owners, d: nat, c: nat)
    requires Good(m0, own0) && d in m0.dirs && c in own0 && own0[c] == Free && m.dirs.Keys == m0.dirs.Keys + {c}
    requires (forall e: nat, v: nat :: e != c ==> Lookup(m, e, v) == Lookup(m0, e, v)) && Grew(own0, own, c, 0)
    requires KeepBytes(m0, m, own0, own) && forall v :: 0 <= v < KERNPG ==> !Lookup(m, c, v).Map?
    ensures Copying(m0, own0, m, own, d, c, 0)
  {
    hide Good, Lookup, Grew, KeepBytes;
  }

  lemma CopyingParts(m0: Mem, own0: Owners, m: Mem, own: Owners, d: nat, c: nat, i: nat)
    requires Copying(m0, own0, m, own, d, c, i)
    ensures Good(m0, own0) && d in m0.dirs && c in own0 && own0[c] == Free && c !in m0.dirs && c != d
    ensures m.dirs.Keys == m0.dirs.Keys + {c} && Grew(own0, own, c, 0) && KeepBytes(m0, m, own0, own)
    ensures forall e: nat, v: nat :: e != c ==> Lookup(m, e, v) == Lookup(m0, e, v)
    ensures forall v: nat :: i <= v < KERNPG ==> !Lookup(m, c, v).Map?
  {
    hide FreeOk, TabsOk, UsersOk, Lookup, Grew, KeepBytes;
    assert DirOk(m0, own0, c) && DirOk(m0, own0, d);
  }

  /** The page to copy is mapped, still owned by the parent, and holds what it held. */
  lemma SourcePage(m0: Mem, own0: Owners, m: Mem, own: Owners, d: nat, c: nat, i: nat)
    requires Copying(m0, own0, m, own, d, c, i) && Good(m, own) && c != d && i < KERNPG && Lookup(m0, d, i).Map?
    ensures HasTab(m, d, i) && m.tabs[m.dirs[d][i / NENT].page][i % NENT] == Lookup(m0, d, i)
    ensures var p := Lookup(m0, d, i).page;
            p in own0 && own0[p] == User(d, i) && p in own && own[p] == User(d, i)
            && p in m0.bytes && p in m.bytes && m.bytes[p] == m0.bytes[p]
  {
    hide FreeOk;
    assert Lookup(m, d, i) == Lookup(m0, d, i);
    HasTabIff(m, own, d, i);
    assert UserRef(m0, own0, d, i);
    assert GrewAt(own0, own, c, Lookup(m0, d, i).page) by {
      NoPageZero(m0, own0);
    }
  }

  lemma CopyMore(m0: Mem, own0: Owners, m1: Mem, own1: Owners, m2: Mem, m: Mem, own: Owners, d: nat, c: nat, i: nat, p: nat)
    requires Copying(m0, own0, m1, own1, d, c, i) && Good(m1, own1) && i < KERNPG && p in own1 && own1[p] == Free
    requires Lookup(m0, d, i).Map? && Lookup(m0, d, i).page in m0.bytes && Lookup(m0, d, i).page in own1
    requires own1[Lookup(m0, d, i).page] != Free
    requires m2.dirs == m1.dirs && m2.tabs == m1.tabs && m2.bytes == m1.bytes[p := m0.bytes[Lookup(m0, d, i).page]]
    requires m.bytes == m2.bytes && m.dirs.Keys == m2.dirs.Keys && SameMaps(m2, m, c, i, i + 1)
    requires Lookup(m, c, i) == Map(p, Lookup(m0, d, i).w, Lookup(m0, d, i).u)
    requires Grew(own1[p := Loose], own, c, p) && own[p] == User(c, i)
    ensures Copying(m0, own0, m, own, d, c, i + 1)
  {
    NoPageZero(m0, own0);
    hide FreeOk, DirsOk, TabsOk, Lookup;
    SameTablesAll(m1, m2);
    GrewByHand(own0, own1, own, c, p);
    forall v: nat | v < i + 1 ensures Copied(m0, m, d, c, v) {
      if v < i {
        assert Copied(m0, m1, d, c, v) && UserRef(m1, own1, c, v);
      }
    }
    HandBytes(m0, own0, m1, own1, m, own, c, p);
    hide Good;
  }

  lemma CopyFailed(m0: Mem, own0: Owners, m1: Mem, own1: Owners, m2: Mem, m: Mem, own: Owners, d: nat, c: nat, i: nat, p: nat)
    requires Copying(m0, own0, m1, own1, d, c, i) && p in own1 && own1[p] == Free
    requires m2.dirs == m1.dirs && m2.tabs == m1.tabs && p in m2.bytes && m2.bytes == m1.bytes[p := m2.bytes[p]]
    requires m.bytes == m2.bytes && m.dirs.Keys == m2.dirs.Keys && SameMaps(m2, m, c, i, i + 1)
    requires Grew(own1[p := Loose], own, c, p) && own[p] == Loose
    ensures p in own && Grew(own0, own[p := Free], c, 0) && KeepBytes(m0, m, own0, own)
    ensures forall e: nat, v: nat :: e != c ==> Lookup(m, e, v) == Lookup(m0, e, v)
  {
    NoPageZero(m0, own0);
    hide Good, Lookup;
    SameTablesAll(m1, m2);
    GrewHand(own1[p := Loose], own, c, p, Free);
    GrewByHand(own0, own1, own[p := Free], c, p);
    HandBytes(m0, own0, m1, own1, m, own, c, p);
  }

  lemma KernelKept(m1: Mem, m2: Mem, m: Mem, c: nat, data: nat, i: nat)
    requires KERNLINK < data < KERNPG + PHYSPG && KernelMapped(m1, c, data, NKMAP) && i < KERNPG
    requires m2.dirs == m1.dirs && m2.tabs == m1.tabs && SameMaps(m2, m, c, i, i + 1)
    ensures KernelMapped(m, c, data, NKMAP)
  {
    hide Lookup;
    SameTablesAll(m1, m2);
    KmapsShape(data);
  }

  /** The first of `n` user pages that is not mapped, or `n`. */
  function FirstGap(m: Mem, d: nat, n: nat): (k: nat)
    ensures k <= n && (forall v :: 0 <= v < k ==> Lookup(m, d, v).Map?) && (k < n ==> !Lookup(m, d, k).Map?)
  {
    if n == 0 then 0
    else
      var k := FirstGap(m, d, n - 1);
      if k < n - 1 || !Lookup(m, d, n - 1).Map? then k else n
  }

  lemma GapIs(m: Mem, d: nat, n: nat, i: nat)
    requires i <= FirstGap(m, d, n) && i < n && !Lookup(m, d, i).Map?
    ensures FirstGap(m, d, n) == i
  {
    hide FirstGap, Lookup;
  }

  lemma GapAfter(m: Mem, d: nat, n: nat, i: nat)
    requires i <= FirstGap(m, d, n) && i < n && Lookup(m, d, i).Map?
    ensures i < FirstGap(m, d, n)
  {
    hide FirstGap, Lookup;
  }

  /** Pages that copying the first `i` user pages takes: the new directory, the copies, their tables. */
  function CopyNeed(i: nat): (n: nat) {
    KERNDIR + i + (i + NENT - 1) / NENT
  }

  lemma CopyNeedGrows(i: nat, j: nat)
    requires i <= j
    ensures CopyNeed(i) <= CopyNeed(j) && CopyNeed(0) == KERNDIR
  {
  }

  lemma UserStart(dir: seq<Entry>)
    requires UserEmpty(dir)
    ensures Tabled(dir, dir, 0, 0)
  {
    TabledSelf(dir, 0);
  }

  lemma UserTabs(dir: seq<Entry>, i: nat)
    requires UserEmpty(dir) && i <= KERNPG
    ensures TabNeed(dir, 0, i) == (i + NENT - 1) / NENT
  {
    if i > 0 {
      EmptiesAre(dir, 0, 0, (i - 1) / NENT + 1);
    }
  }

  lemma CopyNeedStep(dir0: seq<Entry>, dir: seq<Entry>, i: nat)
    requires UserEmpty(dir0) && i < KERNPG && Tabled(dir0, dir, 0, i)
    ensures CopyNeed(i + 1) == CopyNeed(i) + 1 + Lack(dir, i)
  {
    hide TabNeed, Lack, Tabled, UserEmpty;
    UserTabs(dir0, i);
    UserTabs(dir0, i + 1);
    TabNeedStep(dir0, dir, 0, i);
  }

  // ---- the machine ----

  class Machine {
    var freelist: seq<nat>
    var dirs: map<nat, seq<Entry>>
    var tabs: map<nat, seq<Entry>>
    var bytes: map<nat, Page>
    ghost var own: Owners

    ghost function View(): (m: Mem)
      reads this
    {
      Mem(freelist, dirs, tabs, bytes)
    }

    ghost predicate Valid()
      reads this
    {
      Good(View(), own)
    }

    /** kinit and freerange: pages `lo` to `hi` go on the free list one by one. */
    constructor (lo: nat, hi: nat)
      requires 0 < lo <= hi <= PHYSPG
      ensures Valid() && dirs == map[] && (forall p :: p in own <==> lo <= p < hi) && forall p :: p in own ==> own[p] == Free
    {
      freelist := [];
      dirs, tabs, bytes, own := map[], map[], map[], map[];
      new;
      var p := lo;
      while p < hi
        invariant lo <= p <= hi && dirs == map[] && tabs == map[]
        invariant forall q :: q in own <==> lo <= q < p
        invariant forall q :: q in own ==> own[q] == Free
        invariant FreeOk(freelist, own)
      {
        FreeGiven(freelist, own[p := Loose], p);
        assert own[p := Loose][p := Free] == own[p := Free];
        freelist := [p] + freelist;
        bytes := bytes[p := JunkPage()];
        own := own[p := Free];
        p := p + 1;
      }
    }

    method Kalloc() returns (r: Option<nat>)
      requires Valid()
      modifies `freelist, `own
      ensures Valid()
      ensures r.None? <==> old(freelist) == []
      ensures r.None? ==> own == old(own) && freelist == old(freelist)
      ensures r.Some? ==> r.value in old(own) && old(own)[r.value] == Free && own == old(own)[r.value := Loose]
      ensures r.Some? ==> |freelist| == |old(freelist)| - 1
    {
      hide TabsOk, UsersOk, DirsOk;
      if freelist == [] {
        return None;
      }
      var p := freelist[0];
      FreeTaken(freelist, own);
      LooseChanged(View(), own, p, Loose, Take(View()));
      freelist := freelist[1..];
      own := own[p := Loose];
      return Some(p);
    }

    /** kfree of a page in nobody's directory; its panic is unreachable. */
    method Kfree(p: nat)
      requires Valid() && p in own && own[p] == Loose
      modifies `freelist, `bytes, `own
      ensures Valid() && own == old(own)[p := Free] && bytes == old(bytes)[p := JunkPage()]
      ensures 0 < p < PHYSPG
    {
      hide TabsOk, UsersOk, DirsOk;
      FreeGiven(freelist, own, p);
      LooseChanged(View(), own, p, Free, Give(View(), p));
      freelist := [p] + freelist;
      bytes := bytes[p := JunkPage()];
      own := own[p := Free];
    }

    /** walkpgdir: the page table for `v`, made if need be. */
    method Walk(d: nat, v: nat, alloc: bool) returns (t: Option<nat>)
      requires Valid() && d in dirs && v < TOPPG
      modifies `freelist, `dirs, `tabs, `own
      ensures Valid() && dirs.Keys == old(dirs.Keys) && SameMaps(old(View()), View(), 0, 0, 0)
      ensures t.Some? ==> HasTab(View(), d, v) && dirs[d][v / NENT].page == t.value && Grew(old(own), own, d, 0)
      ensures t.None? ==> View() == old(View()) && own == old(own)
      ensures alloc ==> (t.None? <==> |old(freelist)| < Lack(old(dirs)[d], v))
      ensures t.Some? ==> |freelist| == |old(freelist)| - (if alloc then Lack(old(dirs)[d], v) else 0)
      ensures t.Some? ==> Tabled(old(dirs)[d], dirs[d], v, if alloc then v + 1 else v)
      ensures !alloc ==> View() == old(View()) && own == old(own) && (t.None? <==> !HasTab(View(), d, v))
    {
      hide Good;
      GrewSelf(own, d, 0);
      HasTabIff(View(), own, d, v);
      var pde := dirs[d][v / NENT];
      if pde.Map? {
        return Some(pde.page);
      }
      if !alloc {
        return None;
      }
      var r := Kalloc();
      if r.None? {
        return None;
      }
      AddTabGood(View(), own, d, v / NENT, r.value);
      forall e: nat, x: nat ensures Lookup(AddTab(View(), d, v / NENT, r.value), e, x) == Lookup(View(), e, x) {
        AddTabLookup(View(), own, d, v / NENT, r.value, e, x);
      }
      tabs := tabs[r.value := NoEntries()];
      dirs := dirs[d := dirs[d][v / NENT := Map(r.value, true, true)]];
      own := own[r.value := Tab(d, v / NENT)];
      assert forall p :: p in old(own) ==> GrewAt(old(own), own, d, p);
      return Some(r.value);
    }

    /** mappages for one page: the page table is made if need be and the entry written. A user
        page must be loose and becomes the directory's. */
    method MapOne(d: nat, v: nat, p: nat, w: bool, u: bool) returns (ok: bool)
      requires Valid() && d in dirs && v < TOPPG && !Lookup(View(), d, v).Map?
      requires v < KERNPG ==> p in own && own[p] == Loose && p in bytes
      modifies `freelist, `dirs, `tabs, `own
      ensures Valid() && dirs.Keys == old(dirs.Keys) && SameMaps(old(View()), View(), d, v, v + 1)
      ensures Lookup(View(), d, v) == if ok then Map(p, w, u) else old(Lookup(View(), d, v))
      ensures Grew(old(own), own, d, if v < KERNPG then p else 0)
      ensures v < KERNPG ==> p in own && own[p] == if ok then User(d, v) else Loose
      ensures ok <==> |old(freelist)| >= Lack(old(dirs)[d], v)
      ensures ok ==> |freelist| == |old(freelist)| - Lack(old(dirs)[d], v) && Tabled(old(dirs)[d], dirs[d], v, v + 1)
    {
      hide Good;
      NoPageZero(View(), own);
      var t := Walk(d, v, true);
      if t.None? {
        GrewSelf(own, d, if v < KERNPG then p else 0);
        return false;
      }
      ghost var m1, own1 := View(), own;
      GrewLoose(old(own), own1, d, p);
      assert Lookup(m1, d, v) == old(Lookup(View(), d, v));
      if v < KERNPG {
        MapUserGood(m1, own1, d, v, p, w, u);
        own := own[p := User(d, v)];
        GrewHand(old(own), own1, d, p, User(d, v));
      } else {
        MapKernelGood(m1, own1, d, v, Map(p, w, u));
      }
      forall e: nat, x: nat
        ensures Lookup(SetPte(m1, d, v, Map(p, w, u)), e, x) == if e == d && x == v then Map(p, w, u) else Lookup(m1, e, x)
      {
        SetPteLookup(m1, own1, d, v, Map(p, w, u), e, x);
      }
      tabs := tabs[t.value := tabs[t.value][v % NENT := Map(p, w, u)]];
      assert View() == SetPte(m1, d, v, Map(p, w, u));
      return true;
    }

    /** mappages: `n` pages from `v` to the physical pages from `pa`. */
    method Mappages(d: nat, v: nat, n: nat, pa: nat, w: bool, u: bool) returns (ok: bool)
      requires Valid() && d in dirs && n > 0 && v + n <= TOPPG && forall x :: v <= x < v + n ==> !Lookup(View(), d, x).Map?
      requires v < KERNPG ==> n == 1 && pa in own && own[pa] == Loose && pa in bytes
      modifies `freelist, `dirs, `tabs, `own
      ensures Valid() && dirs.Keys == old(dirs.Keys) && SameMaps(old(View()), View(), d, v, v + n)
      ensures ok ==> forall x :: v <= x < v + n ==> Lookup(View(), d, x) == Map(pa + (x - v), w, u)
      ensures !ok && v < KERNPG ==> Lookup(View(), d, v) == old(Lookup(View(), d, v))
      ensures Grew(old(own), own, d, if v < KERNPG then pa else 0)
      ensures v < KERNPG ==> pa in own && own[pa] == if ok then User(d, v) else Loose
      ensures ok <==> |old(freelist)| >= TabNeed(old(dirs)[d], v, v + n)
      ensures ok ==> |freelist| == |old(freelist)| - TabNeed(old(dirs)[d], v, v + n) && Tabled(old(dirs)[d], dirs[d], v, v + n)
    {
      hide Good, TabNeed, Lack, Tabled, Lookup, Grew, Mapping, SameMaps;
      ghost var m0, own0 := View(), own;
      TabNeedOne(dirs[d], v);
      TabNeedGrows(dirs[d], v, v + 1, v + n);
      ok := MapOne(d, v, pa, w, u);
      if !ok {
        SameMapsWider(m0, View(), d, v, v + 1, v + n);
        return;
      }
      MappingOne(m0, own0, View(), own, d, v, pa, w, u);
      var k := 1;
      while k < n
        invariant 1 <= k <= n && Valid() && Mapping(m0, own0, View(), own, d, v, k, pa, w, u)
        invariant v < KERNPG ==> k == 1
        decreases n - k
      {
        ghost var m1, own1 := View(), own;
        MappingNext(m0, own0, m1, own1, d, v, k, pa, w, u);
        TabNeedGrows(m0.dirs[d], v, v + k + 1, v + n);
        ok := MapOne(d, v + k, pa + k, w, u);
        if !ok {
          MappingFailed(m0, own0, m1, own1, View(), own, d, v, k, pa, w, u, n);
          return;
        }
        MappingMore(m0, own0, m1, own1, View(), own, d, v, k, pa, w, u);
        k := k + 1;
      }
      MappingParts(m0, own0, View(), own, d, v, k, pa, w, u);
    }

    /** deallocuvm on a mapped page: kfree, then clear the entry. */
    method FreePage(d: nat, v: nat, t: nat)
      requires Valid() && HasTab(View(), d, v) && dirs[d][v / NENT].page == t && v < KERNPG && Lookup(View(), d, v).Map?
      modifies `freelist, `tabs, `bytes, `own
      ensures Valid() && SameMaps(old(View()), View(), d, v, v + 1) && Lookup(View(), d, v) == Zero
      ensures var p := old(Lookup(View(), d, v)).page;
              p in old(own) && old(own)[p] == User(d, v) && own == old(own)[p := Free] && bytes == old(bytes)[p := JunkPage()]
    {
      hide Good;
      ghost var m, own0 := View(), own;
      var pa := tabs[t][v % NENT].page;
      UnmapGood(m, own0, d, v);
      GiveGood(SetPte(m, d, v, Zero), own0[pa := Loose], pa);
      forall e: nat, x: nat ensures Lookup(SetPte(m, d, v, Zero), e, x) == if e == d && x == v then Zero else Lookup(m, e, x) {
        SetPteLookup(m, own0, d, v, Zero, e, x);
      }
      freelist := [pa] + freelist;
      bytes := bytes[pa := JunkPage()];
      tabs := tabs[t := tabs[t][v % NENT := Zero]];
      own := own[pa := Free];
      assert View() == Give(SetPte(m, d, v, Zero), pa) && own == own0[pa := Loose][pa := Free];
    }

    /** deallocuvm: free the user pages from `newsz` to `oldsz` bytes. */
    method Deallocuvm(d: nat, oldsz: nat, newsz: nat) returns (r: nat)
      requires Valid() && d in dirs && oldsz <= KERNPG * PGSIZE
      modifies `freelist, `dirs, `tabs, `bytes, `own
      ensures Valid() && dirs == old(dirs) && r == if newsz >= oldsz then oldsz else newsz
      ensures newsz >= oldsz ==> View() == old(View()) && own == old(own)
      ensures newsz < oldsz ==> SameMaps(old(View()), View(), d, PgUp(newsz), PgUp(oldsz))
      ensures newsz < oldsz ==> forall v :: PgUp(newsz) <= v < PgUp(oldsz) ==> !Lookup(View(), d, v).Map?
      ensures newsz < oldsz ==> own == Released(old(own), d, PgUp(newsz), PgUp(oldsz))
      ensures KeepBytes(old(View()), View(), old(own), own)
    {
      hide Good, PgUp, KeepBytes, Released;
      ghost var m0, own0 := View(), own;
      KeepBytesSelf(m0, own0);
      if newsz >= oldsz {
        return oldsz;
      }
      ghost var lo, hi := PgUp(newsz), PgUp(oldsz);
      PgUpBounds(newsz, oldsz);
      ReleasedNone(own0, d, lo);
      var a := PgUp(newsz);
      while a * PGSIZE < oldsz
        invariant lo <= a <= KERNPG && Valid() && dirs == m0.dirs && (a * PGSIZE < oldsz <==> a < hi)
        invariant SameMaps(m0, View(), d, lo, a) && own == Released(own0, d, lo, a) && KeepBytes(m0, View(), own0, own)
        invariant forall x :: lo <= x < a ==> !Lookup(View(), d, x).Map?
        invariant forall x :: hi <= x < a ==> !Lookup(m0, d, x).Map?
        decreases KERNPG - a
      {
        ghost var m1, own1 := View(), own;
        HasTabIff(m1, own1, d, a);
        var t := Walk(d, a, false);
        if t.None? {
          var b := (a / NENT + 1) * NENT - 1;
          NoTable(m0, own0, m1, own1, d, lo, a, b + 1);
          a := b;
        } else if tabs[t.value][a % NENT].Map? {
          FreePage(d, a, t.value);
          ReleasedOne(m0, own0, m1, own1, d, lo, a);
          KeepBytesFreed(m0, m1, View(), own0, own1, own, Lookup(m1, d, a).page);
          SameMapsTwice(m0, m1, View(), d, lo, a, a + 1);
        } else {
          NotMapped(m0, own0, m1, own1, d, lo, a);
        }
        a := a + 1;
        PgUpAt(oldsz, a);
      }
      Overshoot(m0, own0, View(), d, lo, hi, a);
      return newsz;
    }

    /** freevm's loop over the directory. */
    method FreeTables(d: nat, pgdir: seq<Entry>, ghost m0: Mem, ghost own0: Owners, ghost m1: Mem, ghost own1: Owners)
      requires Valid() && Good(m1, own1) && d in m1.dirs && pgdir == m1.dirs[d] && |pgdir| == NENT
      requires own == FreedTo(own1, d, 0) && KeepBytes(m0, View(), own0, own)
      modifies `freelist, `bytes, `own
      ensures Valid() && own == FreedTo(own1, d, NENT) && KeepBytes(m0, View(), own0, own)
    {
      hide Good, KeepBytes, FreedTo;
      var i := 0;
      while i < NENT
        invariant 0 <= i <= NENT && Valid() && own == FreedTo(own1, d, i) && KeepBytes(m0, View(), own0, own)
      {
        TableFacts(m1, own1, d, i);
        if pgdir[i].Map? {
          ghost var m3, own3 := View(), own;
          Kfree(pgdir[i].page);
          KeepBytesLoose(m0, m3, View(), own0, own3, pgdir[i].page);
        }
        i := i + 1;
      }
    }

    /** freevm: every user page, every page table, and the directory. */
    method Freevm(d: nat)
      requires Valid() && d in dirs
      modifies `freelist, `dirs, `tabs, `bytes, `own
      ensures Valid() && own == Freed(old(own), d) && dirs == old(dirs) - {d}
      ensures forall e: nat, v: nat :: e != d ==> Lookup(View(), e, v) == old(Lookup(View(), e, v))
      ensures KeepBytes(old(View()), View(), old(own), own)
    {
      hide Good, KeepBytes, Released, Freed, Detached, Lookup;
      ghost var m0, own0 := View(), own;
      PgUpWhole();
      var r := Deallocuvm(d, KERNPG * PGSIZE, 0);
      ghost var m1, own1 := View(), own;
      DetachGood(m1, own1, d);
      DirectoryFacts(m1, own1, d);
      var pgdir := dirs[d];
      dirs := dirs - {d};
      own := Detached(own1, d);
      DetachedTo(own1, d);
      ghost var m2 := View();
      KeepBytesDetached(m0, m1, m2, own0, own1, d);
      FreeTables(d, pgdir, m0, own0, m1, own1);
      FreedToEnd(m0, own0, m1, own1, d);
      ghost var m4, own4 := View(), own;
      Kfree(d);
      KeepBytesLoose(m0, m4, View(), own0, own4, d);
      forall e: nat, v: nat | e != d ensures Lookup(View(), e, v) == Lookup(m0, e, v) {
        SameTables(m2, View(), e, v);
      }
    }

    /** setupkvm's loop over kmap[]. */
    method MapKernel(d: nat, data: nat, ghost m0: Mem, ghost own0: Owners) returns (ok: bool)
      requires Valid() && KERNLINK < data < KERNPG + PHYSPG && d in dirs
      requires bytes == m0.bytes && Grew(own0, own, d, 0)
      requires forall e: nat, v: nat :: e != d ==> Lookup(View(), e, v) == Lookup(m0, e, v)
      requires forall v: nat :: !Lookup(View(), d, v).Map?
      requires dirs[d] == NoEntries()
      modifies `freelist, `dirs, `tabs, `own
      ensures ok <==> |old(freelist)| >= KERNTABS
      ensures ok ==> d in dirs && |freelist| == |old(freelist)| - KERNTABS && UserEmpty(dirs[d])
      ensures Valid() && dirs.Keys == old(dirs.Keys) && Grew(own0, own, d, 0)
      ensures forall e: nat, v: nat :: e != d ==> Lookup(View(), e, v) == Lookup(m0, e, v)
      ensures ok ==> KernelMapped(View(), d, data, NKMAP) && forall v :: 0 <= v < KERNPG ==> !Lookup(View(), d, v).Map?
    {
      hide Good, KeepBytes, Lookup, Kmaps, KernelMapped, Grew, TabNeed, Tabled, KernelSlots, KernelNeed;
      KmapsShape(data);
      KernelNone(View(), d, data);
      KernelSlotsNone(data);
      ghost var free0 := |freelist|;
      assert KernelNeed(data, 0) == 0 && KernelNeed(data, NKMAP) == KERNTABS by { KernelNeedEnds(data); }
      var k := 0;
      while k < NKMAP
        invariant 0 <= k <= NKMAP && Valid() && dirs.Keys == old(dirs.Keys) && Grew(own0, own, d, 0)
        invariant forall e: nat, v: nat :: e != d ==> Lookup(View(), e, v) == Lookup(m0, e, v)
        invariant forall v: nat :: v < KERNPG || v >= KmapStart(data, k) ==> !Lookup(View(), d, v).Map?
        invariant KernelMapped(View(), d, data, k)
        invariant KernelSlots(dirs[d], data, k) && |freelist| == free0 - KernelNeed(data, k)
      {
        ghost var m1, own1 := View(), own;
        var x := Kmaps(data)[k];
        KmapRoom(data, k);
        KernelNeedStep(dirs[d], data, k);
        ok := Mappages(d, x.virt, x.n, x.phys, x.w, false);
        GrewTwice(own0, own1, own, d, 0);
        if !ok {
          return;
        }
        KernelMore(m1, View(), d, data, k);
        KernelSlotsStep(m1.dirs[d], dirs[d], data, k);
        k := k + 1;
      }
      KernelSlotsEnd(dirs[d], data);
      ok := true;
    }

    /** Free a directory made since the state `m0`: as if it had never been. */
    method Abandon(ghost m0: Mem, ghost own0: Owners, d: nat, ghost data: nat)
      requires Valid() && Good(m0, own0) && d in own0 && own0[d] == Free && d !in m0.dirs && d in dirs
      requires dirs.Keys == m0.dirs.Keys + {d} && Grew(own0, own, d, 0) && KeepBytes(m0, View(), own0, own)
      requires forall e: nat, v: nat :: e != d ==> Lookup(View(), e, v) == Lookup(m0, e, v)
      modifies `freelist, `dirs, `tabs, `bytes, `own
      ensures Valid() && own == own0 && dirs.Keys == m0.dirs.Keys && KeepBytes(m0, View(), own0, own)
      ensures forall e: nat, v: nat :: Lookup(View(), e, v) == Lookup(m0, e, v)
    {
      hide Good, KeepBytes, Lookup, Freed;
      ghost var m1, own1 := View(), own;
      NoPageZero(m0, own0);
      FreedUndoes(m0, own0, own1, d);
      Freevm(d);
      KeepBytesTwice(m0, m1, View(), own0, own1, own, d, 0);
      forall v: nat ensures Lookup(View(), d, v) == Lookup(m0, d, v) {
        NoDirectory(m0, d, v);
        NoDirectory(View(), d, v);
      }
    }

    /** setupkvm: a directory with the kernel's mappings and no user page, or nothing. */
    method Setupkvm(data: nat) returns (r: Option<nat>)
      requires Valid() && KERNLINK < data < KERNPG + PHYSPG
      modifies `freelist, `dirs, `tabs, `bytes, `own
      ensures r.Some? <==> |old(freelist)| >= KERNDIR
      ensures r.Some? ==> |freelist| == |old(freelist)| - KERNDIR && r.value in dirs && UserEmpty(dirs[r.value])
      ensures Valid() && KeepBytes(old(View()), View(), old(own), own)
      ensures forall e: nat, v: nat :: r != Some(e) ==> Lookup(View(), e, v) == old(Lookup(View(), e, v))
      ensures r.None? ==> own == old(own) && dirs.Keys == old(dirs.Keys)
      ensures r.Some? ==> r.value in old(own) && old(own)[r.value] == Free && Grew(old(own), own, r.value, 0)
      ensures r.Some? ==> dirs.Keys == old(dirs.Keys) + {r.value} && KernelMapped(View(), r.value, data, NKMAP)
      ensures r.Some? ==> forall v :: 0 <= v < KERNPG ==> !Lookup(View(), r.value, v).Map?
    {
      hide Good, KeepBytes, Lookup, Kmaps, KernelMapped, Grew;
      ghost var m0, own0 := View(), own;
      KeepBytesSelf(m0, own0);
      r := Kalloc();
      if r.None? {
        SameTablesAll(m0, View());
        return;
      }
      var d := r.value;
      NewDirectory(m0, own0, View(), own, d);
      dirs := dirs[d := NoEntries()];
      own := own[d := Dir];
      var ok := MapKernel(d, data, m0, own0);
      KeepBytesSame(m0, View(), own0, own);
      if !ok {
        Abandon(m0, own0, d, data);
        return None;
      }
    }

    /** allocuvm out of memory: unmap what it mapped. */
    method Undo(ghost m0: Mem, ghost own0: Owners, d: nat, oldsz: nat, newsz: nat, ghost a: nat)
      requires Valid() && d in dirs && oldsz <= newsz < KERNPG * PGSIZE && PgUp(oldsz) <= a < PgUp(newsz)
      requires Growing(m0, own0, View(), own, d, PgUp(oldsz), a)
      requires forall v :: PgUp(oldsz) <= v < PgUp(newsz) ==> !Lookup(m0, d, v).Map?
      modifies `freelist, `dirs, `tabs, `bytes, `own
      ensures Valid() && dirs.Keys == m0.dirs.Keys && SameMaps(m0, View(), d, 0, 0)
      ensures Grew(own0, own, d, 0) && KeepBytes(m0, View(), own0, own)
    {
      hide Good, PgUp, KeepBytes, Lookup, Grew, AllFresh, Released, SameMaps;
      ghost var m1, own1 := View(), own;
      PgUpStrict(oldsz, newsz);
      var r := Deallocuvm(d, newsz, oldsz);
      UndoFacts(m0, own0, m1, own1, View(), own, d, PgUp(oldsz), PgUp(newsz), a);
    }

    /** The same with a page in hand that could not be mapped. */
    method UndoInHand(ghost m0: Mem, ghost own0: Owners, d: nat, oldsz: nat, newsz: nat, ghost a: nat, p: nat)
      requires Valid() && d in dirs && oldsz <= newsz < KERNPG * PGSIZE && PgUp(oldsz) <= a < PgUp(newsz)
      requires p in own && own[p] == Loose && Growing(m0, own0, View(), own[p := Free], d, PgUp(oldsz), a)
      requires forall v :: PgUp(oldsz) <= v < PgUp(newsz) ==> !Lookup(m0, d, v).Map?
      modifies `freelist, `dirs, `tabs, `bytes, `own
      ensures Valid() && dirs.Keys == m0.dirs.Keys && SameMaps(m0, View(), d, 0, 0)
      ensures Grew(own0, own, d, 0) && KeepBytes(m0, View(), own0, own)
    {
      hide Good, PgUp, KeepBytes, Lookup, Grew, AllFresh, Released, SameMaps;
      ghost var m1, own1 := View(), own;
      PgUpStrict(oldsz, newsz);
      var r := Deallocuvm(d, newsz, oldsz);
      ghost var m2, own2 := View(), own;
      ReleasedHand(own1, d, PgUp(oldsz), PgUp(newsz), p);
      Kfree(p);
      KeepBytesHand(m1, m2, View(), own1, own2, p);
      SameMapsTables(m1, m2, View(), d, PgUp(oldsz), PgUp(newsz));
      UndoFacts(m0, own0, m1, own1[p := Free], View(), own, d, PgUp(oldsz), PgUp(newsz), a);
    }

    /** allocuvm: zeroed pages for the user from `oldsz` to `newsz` bytes, or every mapping as before. */
    method Allocuvm(d: nat, oldsz: nat, newsz: nat) returns (r: nat)
      requires Valid() && d in dirs
      requires newsz < KERNPG * PGSIZE ==> forall v :: PgUp(oldsz) <= v < PgUp(newsz) ==> !Lookup(View(), d, v).Map?
      modifies `freelist, `dirs, `tabs, `bytes, `own
      ensures Valid() && dirs.Keys == old(dirs.Keys) && Grew(old(own), own, d, 0) && KeepBytes(old(View()), View(), old(own), own)
      ensures r == newsz || r == 0 || r == oldsz
      ensures newsz >= KERNPG * PGSIZE ==> r == 0
      ensures newsz < oldsz && newsz < KERNPG * PGSIZE ==> r == oldsz
      ensures newsz >= KERNPG * PGSIZE || newsz < oldsz ==> View() == old(View()) && own == old(own)
      ensures oldsz <= newsz < KERNPG * PGSIZE && r == newsz ==>
        SameMaps(old(View()), View(), d, PgUp(oldsz), PgUp(newsz)) && AllFresh(View(), d, PgUp(oldsz), PgUp(newsz))
      ensures oldsz <= newsz < KERNPG * PGSIZE && r != newsz ==> r == 0 && SameMaps(old(View()), View(), d, 0, 0)
      ensures oldsz <= newsz < KERNPG * PGSIZE ==>
        (r == newsz <==> |old(freelist)| >= GrowNeed(old(dirs)[d], PgUp(oldsz), PgUp(newsz)))
      ensures oldsz <= newsz < KERNPG * PGSIZE && r == newsz ==>
        |freelist| == |old(freelist)| - GrowNeed(old(dirs)[d], PgUp(oldsz), PgUp(newsz))
    {
      hide Good, PgUp, KeepBytes, Lookup, Grew, AllFresh, Released, SameMaps, TabNeed, Tabled, Lack;
      ghost var m0, own0 := View(), own;
      GrewSelf(own0, d, 0);
      KeepBytesSelf(m0, own0);
      if newsz >= KERNPG * PGSIZE {
        return 0;
      }
      if newsz < oldsz {
        return oldsz;
      }
      ghost var lo, hi := PgUp(oldsz), PgUp(newsz);
      var a := PgUp(oldsz);
      PgUpSpan(oldsz, newsz);
      AllocStart(m0, own0, d, lo);
      GrowNeedStart(m0, own0, d, lo);
      while a * PGSIZE < newsz
        invariant lo <= a <= hi && Valid() && d in dirs && Growing(m0, own0, View(), own, d, lo, a)
        invariant Tabled(m0.dirs[d], dirs[d], lo, a) && |freelist| == |m0.freelist| - GrowNeed(m0.dirs[d], lo, a)
        decreases hi - a
      {
        PgUpAt(newsz, a);
        ghost var m1, own1 := View(), own;
        GrowingUnmapped(m0, own0, m1, own1, d, lo, a);
        GrowNeedStep(m0.dirs[d], dirs[d], lo, a, hi);
        var mem := Kalloc();
        if mem.None? {
          Undo(m0, own0, d, oldsz, newsz, a);
          return 0;
        }
        ContentsSet(View(), own, mem.value, ZeroPage());
        bytes := bytes[mem.value := ZeroPage()];
        ghost var m2 := View();
        SameTables(m1, m2, d, a);
        var ok := Mappages(d, a, 1, mem.value, true, true);
        if !ok {
          GrowingFailed(m0, own0, m1, own1, m2, View(), own, d, lo, a, mem.value);
          UndoInHand(m0, own0, d, oldsz, newsz, a, mem.value);
          return 0;
        }
        GrowingMore(m0, own0, m1, own1, m2, View(), own, d, lo, a, mem.value);
        TabledStep(m0.dirs[d], m1.dirs[d], dirs[d], lo, a);
        a := a + 1;
        PgUpAt(newsz, a);
      }
      PgUpAt(newsz, a);
      return newsz;
    }

    /** copyuvm's loop for page `i`, whose entry is `e`; on failure the new directory is freed. */
    method CopyPage(ghost m0: Mem, ghost own0: Owners, d: nat, c: nat, i: nat, ghost data: nat, e: Entry) returns (ok: bool)
      requires Valid() && KERNLINK < data < KERNPG + PHYSPG && i < KERNPG && Copying(m0, own0, View(), own, d, c, i)
      requires Lookup(m0, d, i).Map? && e == Lookup(m0, d, i) && KernelMapped(View(), c, data, NKMAP) && c in dirs
      modifies `freelist, `dirs, `tabs, `bytes, `own
      ensures ok <==> |old(freelist)| >= 1 + Lack(old(dirs)[c], i)
      ensures ok ==> |freelist| == |old(freelist)| - 1 - Lack(old(dirs)[c], i)
      ensures ok ==> c in dirs && Tabled(old(dirs)[c], dirs[c], i, i + 1)
      ensures Valid()
      ensures ok ==> Copying(m0, own0, View(), own, d, c, i + 1) && KernelMapped(View(), c, data, NKMAP)
      ensures !ok ==> own == own0 && dirs.Keys == m0.dirs.Keys && KeepBytes(m0, View(), own0, own)
      ensures !ok ==> forall e: nat, v: nat :: Lookup(View(), e, v) == Lookup(m0, e, v)
    {
      hide Good, KeepBytes, Lookup, Grew, KernelMapped, Copying, TabNeed, Tabled, Lack;
      ghost var m1, own1 := View(), own;
      CopyingParts(m0, own0, m1, own1, d, c, i);
      SourcePage(m0, own0, m1, own1, d, c, i);
      TabNeedOne(dirs[c], i);
      var mem := Kalloc();
      if mem.None? {
        Abandon(m0, own0, c, data);
        return false;
      }
      ContentsSet(View(), own, mem.value, bytes[e.page]);
      bytes := bytes[mem.value := bytes[e.page]];
      ghost var m2 := View();
      SameTables(m1, m2, c, i);
      ok := Mappages(c, i, 1, mem.value, e.w, e.u);
      if !ok {
        ghost var m3, own3 := View(), own;
        CopyFailed(m0, own0, m1, own1, m2, m3, own3, d, c, i, mem.value);
        Kfree(mem.value);
        KeepBytesLoose(m0, m3, View(), own0, own3, mem.value);
        SameTablesAll(m3, View());
        Abandon(m0, own0, c, data);
        return;
      }
      CopyMore(m0, own0, m1, own1, m2, View(), own, d, c, i, mem.value);
      KernelKept(m1, m2, View(), c, data, i);
    }

    /** copyuvm: a directory with the kernel's mappings and a copy of every user page below `sz`
        bytes; everything as before when memory runs out; a panic at a page that is not mapped. */
    method Copyuvm(d: nat, sz: nat, data: nat) returns (r: CopyResult)
      requires Valid() && d in dirs && KERNLINK < data < KERNPG + PHYSPG && sz <= KERNPG * PGSIZE
      modifies `freelist, `dirs, `tabs, `bytes, `own
      ensures r.NoMemory? <==> |old(freelist)| < CopyNeed(FirstGap(old(View()), d, PgUp(sz)))
      ensures r.Panic? <==>
        FirstGap(old(View()), d, PgUp(sz)) < PgUp(sz) && |old(freelist)| >= CopyNeed(FirstGap(old(View()), d, PgUp(sz)))
      ensures Valid() && KeepBytes(old(View()), View(), old(own), own)
      ensures !r.Panic? ==> forall e: nat, v: nat :: r != Copy(e) ==> Lookup(View(), e, v) == old(Lookup(View(), e, v))
      ensures r.NoMemory? ==> own == old(own) && dirs.Keys == old(dirs.Keys)
      ensures r.Copy? ==> Copying(old(View()), old(own), View(), own, d, r.dir, PgUp(sz))
      ensures r.Copy? ==> KernelMapped(View(), r.dir, data, NKMAP) && |freelist| == |old(freelist)| - CopyNeed(PgUp(sz))
    {
      hide Good, PgUp, KeepBytes, Lookup, Grew, Copying, KernelMapped, FirstGap, CopyNeed, Tabled, UserEmpty, Lack;
      ghost var m0, own0 := View(), own;
      ghost var gap := FirstGap(m0, d, PgUp(sz));
      CopyNeedGrows(0, gap);
      var new_ := Setupkvm(data);
      if new_.None? {
        return NoMemory;
      }
      var c := new_.value;
      CopyStart(m0, own0, View(), own, d, c);
      ghost var dir0 := dirs[c];
      UserStart(dir0);
      PgUpAt(sz, 0);
      PgUpWithin(sz);
      var i := 0;
      while i * PGSIZE < sz
        invariant 0 <= i <= gap && Valid() && Copying(m0, own0, View(), own, d, c, i)
        invariant KernelMapped(View(), c, data, NKMAP) && (i * PGSIZE < sz <==> i < PgUp(sz))
        invariant c in dirs && Tabled(dir0, dirs[c], 0, i) && |freelist| == |m0.freelist| - CopyNeed(i)
        decreases PgUp(sz) - i
      {
        CopyingParts(m0, own0, View(), own, d, c, i);
        EntryIsLookup(View(), own, d, i);
        var t := Walk(d, i, false);
        if t.None? || !tabs[t.value][i % NENT].Map? {
          GapIs(m0, d, PgUp(sz), i);
          return Panic;
        }
        GapAfter(m0, d, PgUp(sz), i);
        CopyNeedStep(dir0, dirs[c], i);
        CopyNeedGrows(i + 1, gap);
        ghost var dir1 := dirs[c];
        var ok := CopyPage(m0, own0, d, c, i, data, tabs[t.value][i % NENT]);
        if !ok {
          return NoMemory;
        }
        TabledStep(dir0, dir1, dirs[c], 0, i);
        i := i + 1;
        PgUpAt(sz, i);
      }
      CopyingParts(m0, own0, View(), own, d, c, i);
      r := Copy(c);
    }
  }
}
