/** vm.c and kalloc.c on values: two-level page tables over physical pages, and who owns each
    page. Addresses are page numbers: a virtual page `v` has directory index v / 1024 and table
    index v % 1024 (section 4.3 of the Intel SDM, volume 3A). */
module VmSpec {
  import opened Blocks

  const PGSIZE := 4096
  const NENT := 1024
  const KERNPG := 0x80000     // KERNBASE / PGSIZE
  const TOPPG := 0x100000     // one past the last virtual page
  const PHYSPG := 0xE000      // PHYSTOP / PGSIZE

  /** A page directory or page table entry; `Zero` is not present. */
  datatype Entry = Zero | Map(page: nat, w: bool, u: bool)

  type Page = seq<Byte>

  /** The free list, the live directories and tables, and what the other pages hold. */
  datatype Mem = Mem(freelist: seq<nat>, dirs: map<nat, seq<Entry>>, tabs: map<nat, seq<Entry>>, bytes: map<nat, Page>)

  /** Who a physical page belongs to. Loose: allocated, and in no page directory. */
  datatype Owner = Free | Loose | Dir | Tab(d: nat, i: nat) | User(d: nat, v: nat)

  type Owners = map<nat, Owner>

  function NoEntries(): (r: seq<Entry>)
    ensures |r| == NENT && forall i :: 0 <= i < NENT ==> r[i] == Zero
  {
    seq(NENT, i => Zero)
  }

  function ZeroPage(): (r: Page) {
    seq(PGSIZE, i => 0)
  }

  function JunkPage(): (r: Page) {
    seq(PGSIZE, i => 1)
  }

  /** The entry that maps virtual page `v` in directory `d`, as the hardware walks. */
  function Lookup(m: Mem, d: nat, v: nat): (e: Entry) {
    if d in m.dirs && v / NENT < |m.dirs[d]| && m.dirs[d][v / NENT].Map? && m.dirs[d][v / NENT].page in m.tabs
       && v % NENT < |m.tabs[m.dirs[d][v / NENT].page]|
    then m.tabs[m.dirs[d][v / NENT].page][v % NENT]
    else Zero
  }

  // ---- ownership ----

  ghost predicate FreeOk(free: seq<nat>, own: Owners) {
    && (forall i, j :: 0 <= i < j < |free| ==> free[i] != free[j])
    && (forall p :: p in free ==> p in own && own[p] == Free)
    && (forall p :: p in own && own[p] == Free ==> p in free)
  }

  ghost predicate DirOk(m: Mem, own: Owners, d: nat) {
    (d in m.dirs <==> d in own && own[d] == Dir) && (d in m.dirs ==> |m.dirs[d]| == NENT)
  }

  /** A directory entry points to a table page owned for it, and restricts no access: permissions are
      the page table entry's. */
  ghost predicate TabRef(m: Mem, own: Owners, d: nat, i: nat)
    requires d in m.dirs && i < |m.dirs[d]|
  {
    m.dirs[d][i].Map? ==>
      var t := m.dirs[d][i].page;
      t in own && own[t] == Tab(d, i) && t in m.tabs && |m.tabs[t]| == NENT && m.dirs[d][i].w && m.dirs[d][i].u
  }

  /** A page owned as a table is the one its directory entry points to. */
  ghost predicate TabBack(m: Mem, own: Owners, t: nat)
    requires t in own
  {
    own[t].Tab? ==>
      var (d, i) := (own[t].d, own[t].i);
      d in m.dirs && i < |m.dirs[d]| && m.dirs[d][i].Map? && m.dirs[d][i].page == t
  }

  /** A mapped user page is owned for its place and has contents. */
  ghost predicate UserRef(m: Mem, own: Owners, d: nat, v: nat) {
    Lookup(m, d, v).Map? ==>
      var p := Lookup(m, d, v).page;
      p in own && own[p] == User(d, v) && p in m.bytes
  }

  ghost predicate UserBack(m: Mem, own: Owners, p: nat)
    requires p in own
  {
    own[p].User? ==> own[p].v < KERNPG && Lookup(m, own[p].d, own[p].v).Map? && Lookup(m, own[p].d, own[p].v).page == p
  }

  ghost predicate DirsOk(m: Mem, own: Owners) {
    forall d :: DirOk(m, own, d)
  }

  ghost predicate TabsOk(m: Mem, own: Owners) {
    && (forall d, i: nat :: d in m.dirs && i < |m.dirs[d]| ==> TabRef(m, own, d, i))
    && (forall t :: t in own ==> TabBack(m, own, t))
  }

  ghost predicate UsersOk(m: Mem, own: Owners) {
    && (forall d: nat, v: nat :: v < KERNPG ==> UserRef(m, own, d, v))
    && (forall p :: p in own ==> UserBack(m, own, p))
  }

  /** Every page of `own` is free or owned by exactly one place, and every place owns its page. */
  ghost predicate Good(m: Mem, own: Owners) {
    && FreeOk(m.freelist, own) && DirsOk(m, own) && TabsOk(m, own) && UsersOk(m, own)
    && forall p :: p in own ==> 0 < p < PHYSPG
  }

  // ---- steps ----

  /** kalloc on a non-empty list. */
  function Take(m: Mem): (r: Mem)
    requires |m.freelist| > 0
  {
    m.(freelist := m.freelist[1..])
  }

  /** kfree. */
  function Give(m: Mem, p: nat): (r: Mem) {
    m.(freelist := [p] + m.freelist, bytes := m.bytes[p := JunkPage()])
  }

  /** A new page table for directory slot `i`. */
  function AddTab(m: Mem, d: nat, i: nat, t: nat): (r: Mem)
    requires d in m.dirs && i < |m.dirs[d]|
  {
    m.(dirs := m.dirs[d := m.dirs[d][i := Map(t, true, true)]], tabs := m.tabs[t := NoEntries()])
  }

  function AddDir(m: Mem, d: nat): (r: Mem) {
    m.(dirs := m.dirs[d := NoEntries()])
  }

  ghost predicate HasTab(m: Mem, d: nat, v: nat) {
    && d in m.dirs && v / NENT < |m.dirs[d]| && m.dirs[d][v / NENT].Map? && m.dirs[d][v / NENT].page in m.tabs
    && |m.tabs[m.dirs[d][v / NENT].page]| == NENT
  }

  function SetPte(m: Mem, d: nat, v: nat, e: Entry): (r: Mem)
    requires d in m.dirs && v / NENT < |m.dirs[d]| && m.dirs[d][v / NENT].Map? && m.dirs[d][v / NENT].page in m.tabs
    requires v % NENT < |m.tabs[m.dirs[d][v / NENT].page]|
  {
    var t := m.dirs[d][v / NENT].page;
    m.(tabs := m.tabs[t := m.tabs[t][v % NENT := e]])
  }

  // ---- the steps keep ownership ----

  lemma FreeTaken(free: seq<nat>, own: Owners)
    requires FreeOk(free, own) && |free| > 0
    ensures free[0] in own && FreeOk(free[1..], own[free[0] := Loose])
  {
    var p := free[0];
    forall q | q in own && own[q] == Free && q != p ensures q in free[1..] {
      var i :| 0 <= i < |free| && free[i] == q;
      assert free[1..][i - 1] == q;
    }
  }

  lemma FreeGiven(free: seq<nat>, own: Owners, p: nat)
    requires FreeOk(free, own) && p in own && own[p] != Free
    ensures FreeOk([p] + free, own[p := Free])
  {
  }

  lemma FreeKept(free: seq<nat>, own: Owners, own': Owners)
    requires FreeOk(free, own) && own'.Keys == own.Keys
    requires forall p :: p in own ==> (own'[p] == Free <==> own[p] == Free)
    ensures FreeOk(free, own')
  {
  }

  /** Changing who holds pages that are in no directory leaves the rest alone. */
  lemma LooseChanged(m: Mem, own: Owners, p: nat, x: Owner, m': Mem)
    requires Good(m, own) && p in own && (own[p] == Free || own[p] == Loose) && (x == Free || x == Loose)
    requires m'.dirs == m.dirs && m'.tabs == m.tabs && FreeOk(m'.freelist, own[p := x])
    requires m'.bytes == m.bytes || (p in m'.bytes && m'.bytes == m.bytes[p := m'.bytes[p]])
    ensures Good(m', own[p := x])
  {
    var own' := own[p := x];
    forall d ensures DirOk(m', own', d) {
      assert DirOk(m, own, d);
    }
    forall d, i: nat | d in m.dirs && i < |m.dirs[d]| ensures TabRef(m', own', d, i) {
      assert TabRef(m, own, d, i);
    }
    forall t | t in own' ensures TabBack(m', own', t) {
      assert TabBack(m, own, t);
    }
    forall d: nat, v: nat | v < KERNPG ensures UserRef(m', own', d, v) {
      assert UserRef(m, own, d, v) && Lookup(m', d, v) == Lookup(m, d, v);
    }
    forall q | q in own' ensures UserBack(m', own', q) {
      assert UserBack(m, own, q);
    }
  }

  /** A directory slot that is empty maps nothing; filling it with an empty table changes no mapping. */
  lemma AddTabLookup(m: Mem, own: Owners, d: nat, i: nat, t: nat, d': nat, v: nat)
    requires Good(m, own) && d in m.dirs && i < NENT && |m.dirs[d]| == NENT && !m.dirs[d][i].Map?
    requires t in own && own[t] == Loose
    ensures Lookup(AddTab(m, d, i, t), d', v) == Lookup(m, d', v)
  {
    hide UsersOk, FreeOk;
    if d' in m.dirs && v / NENT < |m.dirs[d']| {
      assert TabRef(m, own, d', v / NENT);
    }
  }

  lemma AddTabGood(m: Mem, own: Owners, d: nat, i: nat, t: nat)
    requires Good(m, own) && d in m.dirs && i < NENT && |m.dirs[d]| == NENT && !m.dirs[d][i].Map?
    requires t in own && own[t] == Loose
    ensures Good(AddTab(m, d, i, t), own[t := Tab(d, i)])
  {
    var (m', own') := (AddTab(m, d, i, t), own[t := Tab(d, i)]);
    FreeKept(m.freelist, own, own');
    forall e ensures DirOk(m', own', e) {
      assert DirOk(m, own, e) && DirOk(m, own, d);
    }
    forall e, k: nat | e in m'.dirs && k < |m'.dirs[e]| ensures TabRef(m', own', e, k) {
      assert TabRef(m, own, e, k);
    }
    forall q | q in own' ensures TabBack(m', own', q) {
      assert TabBack(m, own, q);
    }
    forall e: nat, v: nat | v < KERNPG ensures UserRef(m', own', e, v) {
      assert UserRef(m, own, e, v);
      AddTabLookup(m, own, d, i, t, e, v);
    }
    forall q | q in own' ensures UserBack(m', own', q) {
      assert UserBack(m, own, q);
      if own[q].User? {
        AddTabLookup(m, own, d, i, t, own[q].d, own[q].v);
      }
    }
  }

  lemma AddDirGood(m: Mem, own: Owners, d: nat)
    requires Good(m, own) && d in own && own[d] == Loose
    ensures Good(AddDir(m, d), own[d := Dir]) && d !in m.dirs
    ensures forall e: nat, v: nat :: Lookup(AddDir(m, d), e, v) == Lookup(m, e, v)
  {
    var (m', own') := (AddDir(m, d), own[d := Dir]);
    assert DirOk(m, own, d);
    FreeKept(m.freelist, own, own');
    forall e ensures DirOk(m', own', e) {
      assert DirOk(m, own, e);
    }
    forall e, k: nat | e in m'.dirs && k < |m'.dirs[e]| ensures TabRef(m', own', e, k) {
      assert e != d ==> TabRef(m, own, e, k);
    }
    forall q | q in own' ensures TabBack(m', own', q) {
      assert TabBack(m, own, q);
    }
    forall e: nat, v: nat | v < KERNPG ensures UserRef(m', own', e, v) {
      assert UserRef(m, own, e, v);
    }
    forall q | q in own' ensures UserBack(m', own', q) {
      assert UserBack(m, own, q);
    }
  }

  lemma HasTabIff(m: Mem, own: Owners, d: nat, v: nat)
    requires Good(m, own) && d in m.dirs && v < TOPPG
    ensures |m.dirs[d]| == NENT && (m.dirs[d][v / NENT].Map? <==> HasTab(m, d, v))
  {
    assert DirOk(m, own, d) && TabRef(m, own, d, v / NENT);
  }

  /** Writing one entry changes the mapping of that virtual page in that directory only. */
  lemma SetPteLookup(m: Mem, own: Owners, d: nat, v: nat, e: Entry, d': nat, v': nat)
    requires Good(m, own) && HasTab(m, d, v)
    ensures Lookup(SetPte(m, d, v, e), d', v') == if d' == d && v' == v then e else Lookup(m, d', v')
  {
    hide UsersOk, FreeOk;
    assert TabRef(m, own, d, v / NENT);
    if d' in m.dirs && v' / NENT < |m.dirs[d']| {
      assert TabRef(m, own, d', v' / NENT);
    }
  }

  /** What is left to show after a write of one entry: the directories and tables are as before. */
  lemma SetPteTables(m: Mem, own: Owners, d: nat, v: nat, e: Entry, own': Owners)
    requires Good(m, own) && HasTab(m, d, v) && own'.Keys == own.Keys
    requires forall p :: p in own && own'[p] != own[p] ==> (own[p] == Loose || own[p].User?) && (own'[p] == Loose || own'[p].User?)
    ensures FreeOk(m.freelist, own') && DirsOk(SetPte(m, d, v, e), own') && TabsOk(SetPte(m, d, v, e), own')
  {
    hide UsersOk;
    var m' := SetPte(m, d, v, e);
    FreeKept(m.freelist, own, own');
    hide FreeOk;
    forall q ensures DirOk(m', own', q) {
      assert DirOk(m, own, q);
    }
    forall q, k: nat | q in m'.dirs && k < |m'.dirs[q]| ensures TabRef(m', own', q, k) {
      assert TabRef(m, own, q, k);
    }
    forall q | q in own' ensures TabBack(m', own', q) {
      assert TabBack(m, own, q);
    }
  }

  lemma MapUserGood(m: Mem, own: Owners, d: nat, v: nat, p: nat, w: bool, u: bool)
    requires Good(m, own) && HasTab(m, d, v) && v < KERNPG && !Lookup(m, d, v).Map?
    requires p in own && own[p] == Loose && p in m.bytes
    ensures Good(SetPte(m, d, v, Map(p, w, u)), own[p := User(d, v)])
  {
    var (m', own') := (SetPte(m, d, v, Map(p, w, u)), own[p := User(d, v)]);
    SetPteTables(m, own, d, v, Map(p, w, u), own');
    forall e: nat, x: nat | x < KERNPG ensures UserRef(m', own', e, x) {
      assert UserRef(m, own, e, x);
      SetPteLookup(m, own, d, v, Map(p, w, u), e, x);
    }
    forall q | q in own' ensures UserBack(m', own', q) {
      assert UserBack(m, own, q);
      SetPteLookup(m, own, d, v, Map(p, w, u), d, v);
      if own[q].User? {
        SetPteLookup(m, own, d, v, Map(p, w, u), own[q].d, own[q].v);
      }
    }
  }

  lemma MapKernelGood(m: Mem, own: Owners, d: nat, v: nat, e: Entry)
    requires Good(m, own) && HasTab(m, d, v) && v >= KERNPG
    ensures Good(SetPte(m, d, v, e), own)
  {
    var m' := SetPte(m, d, v, e);
    SetPteTables(m, own, d, v, e, own);
    forall q: nat, x: nat | x < KERNPG ensures UserRef(m', own, q, x) {
      assert UserRef(m, own, q, x);
      SetPteLookup(m, own, d, v, e, q, x);
    }
    forall q | q in own ensures UserBack(m', own, q) {
      assert UserBack(m, own, q);
      if own[q].User? {
        SetPteLookup(m, own, d, v, e, own[q].d, own[q].v);
      }
    }
  }

  lemma UnmapGood(m: Mem, own: Owners, d: nat, v: nat)
    requires Good(m, own) && HasTab(m, d, v) && v < KERNPG && Lookup(m, d, v).Map?
    ensures var p := Lookup(m, d, v).page;
            p in own && own[p] == User(d, v) && Good(SetPte(m, d, v, Zero), own[p := Loose])
  {
    assert UserRef(m, own, d, v);
    var p := Lookup(m, d, v).page;
    var (m', own') := (SetPte(m, d, v, Zero), own[p := Loose]);
    SetPteTables(m, own, d, v, Zero, own');
    forall e: nat, x: nat | x < KERNPG ensures UserRef(m', own', e, x) {
      assert UserRef(m, own, e, x);
      SetPteLookup(m, own, d, v, Zero, e, x);
    }
    forall q | q in own' ensures UserBack(m', own', q) {
      assert UserBack(m, own, q);
      if own[q].User? {
        SetPteLookup(m, own, d, v, Zero, own[q].d, own[q].v);
      }
    }
  }

  // ---- directories that grow and are freed ----

  /** The page is the directory `d`, or one of its tables or user pages. */
  ghost predicate Belongs(own: Owners, d: nat, p: nat)
    requires p in own
  {
    (p == d && own[p] == Dir) || (own[p].Tab? && own[p].d == d) || (own[p].User? && own[p].d == d)
  }

  ghost predicate GrewAt(own: Owners, own': Owners, d: nat, p: nat)
    requires p in own && p in own'
  {
    own'[p] == own[p] || (own[p] == Free && Belongs(own', d, p))
  }

  /** Only pages that were free have changed hands, and they went to directory `d`; page `hand`
      is not spoken of. */
  ghost predicate Grew(own: Owners, own': Owners, d: nat, hand: nat) {
    own'.Keys == own.Keys && forall p :: p in own && p != hand ==> GrewAt(own, own', d, p)
  }

  lemma GrewTwice(own: Owners, own1: Owners, own2: Owners, d: nat, hand: nat)
    requires Grew(own, own1, d, hand) && Grew(own1, own2, d, hand)
    ensures Grew(own, own2, d, hand)
  {
    forall p | p in own && p != hand ensures GrewAt(own, own2, d, p) {
      assert GrewAt(own, own1, d, p) && GrewAt(own1, own2, d, p);
    }
  }

  /** A page taken from the free list, mapped by `d` or put back. */
  lemma GrewByHand(own: Owners, own1: Owners, own2: Owners, d: nat, p: nat)
    requires Grew(own, own1, d, 0) && p in own1 && own1[p] == Free && Grew(own1[p := Loose], own2, d, p)
    requires 0 !in own && (own2[p] == Free || Belongs(own2, d, p))
    ensures Grew(own, own2, d, 0)
  {
    forall q | q in own ensures GrewAt(own, own2, d, q) {
      assert GrewAt(own, own1, d, q);
      if q != p {
        assert GrewAt(own1[p := Loose], own2, d, q);
      }
    }
  }

  /** The user pages of `d` from `lo` to `hi` given back. */
  ghost function Released(own: Owners, d: nat, lo: nat, hi: nat): (r: Owners) {
    map p | p in own :: if own[p].User? && own[p].d == d && lo <= own[p].v < hi then Free else own[p]
  }

  /** Everything that belongs to `d` given back. */
  ghost function Freed(own: Owners, d: nat): (r: Owners) {
    map p | p in own :: if Belongs(own, d, p) then Free else own[p]
  }

  lemma GrewReleased(m: Mem, own: Owners, own1: Owners, d: nat, lo: nat, hi: nat)
    requires Good(m, own) && Grew(own, own1, d, 0) && hi <= KERNPG
    requires forall v :: lo <= v < hi ==> !Lookup(m, d, v).Map?
    ensures Grew(own, Released(own1, d, lo, hi), d, 0)
  {
    hide FreeOk, DirsOk, TabsOk;
    forall p | p in own ensures GrewAt(own, Released(own1, d, lo, hi), d, p) {
      assert GrewAt(own, own1, d, p) && UserBack(m, own, p);
    }
  }

  /** A directory made from a free page and then freed leaves no trace. */
  lemma FreedUndoes(m: Mem, own: Owners, own1: Owners, d: nat)
    requires Good(m, own) && d in own && own[d] == Free && Grew(own, own1, d, 0)
    ensures Freed(own1, d) == own
  {
    hide FreeOk;
    forall p | p in own ensures Freed(own1, d)[p] == own[p] {
      assert GrewAt(own, own1, d, p) && UserBack(m, own, p) && TabBack(m, own, p) && DirOk(m, own, d);
    }
  }

  ghost function Detached(own: Owners, d: nat): (r: Owners) {
    map p | p in own :: if Belongs(own, d, p) then Loose else own[p]
  }

  /** A directory with no user page left may be forgotten, its pages becoming loose. */
  lemma DetachGood(m: Mem, own: Owners, d: nat)
    requires Good(m, own) && d in m.dirs && forall v :: 0 <= v < KERNPG ==> !Lookup(m, d, v).Map?
    ensures Good(m.(dirs := m.dirs - {d}), Detached(own, d))
    ensures forall e: nat, v: nat :: e != d ==> Lookup(m.(dirs := m.dirs - {d}), e, v) == Lookup(m, e, v)
  {
    var (m', own') := (m.(dirs := m.dirs - {d}), Detached(own, d));
    FreeKept(m.freelist, own, own');
    forall e ensures DirOk(m', own', e) {
      assert DirOk(m, own, e);
    }
    forall e, k: nat | e in m'.dirs && k < |m'.dirs[e]| ensures TabRef(m', own', e, k) {
      assert TabRef(m, own, e, k);
    }
    forall q | q in own' ensures TabBack(m', own', q) {
      assert TabBack(m, own, q);
    }
    forall e: nat, v: nat | v < KERNPG ensures UserRef(m', own', e, v) {
      assert UserRef(m, own, e, v);
    }
    forall q | q in own' ensures UserBack(m', own', q) {
      assert UserBack(m, own, q);
    }
  }

  /** The page is directory `d`, a table `d` points to, or a user page it maps. */
  ghost predicate Uses(m: Mem, d: nat, p: nat)
    requires d in m.dirs
  {
    || p == d
    || (exists i: nat :: i < |m.dirs[d]| && m.dirs[d][i].Map? && m.dirs[d][i].page == p)
    || (exists v: nat :: v < KERNPG && Lookup(m, d, v).Map? && Lookup(m, d, v).page == p)
  }

  lemma UsesOwned(m: Mem, own: Owners, p: nat, d: nat)
    requires Good(m, own) && p in own && d in m.dirs
    ensures Uses(m, d, p) <==> Belongs(own, d, p)
  {
    hide FreeOk;
    assert DirOk(m, own, p) && DirOk(m, own, d) && TabBack(m, own, p) && UserBack(m, own, p);
    if i: nat :| i < |m.dirs[d]| && m.dirs[d][i].Map? && m.dirs[d][i].page == p {
      assert TabRef(m, own, d, i);
    }
    if v: nat :| v < KERNPG && Lookup(m, d, v).Map? && Lookup(m, d, v).page == p {
      assert UserRef(m, own, d, v);
    }
  }

  /** Page conservation: every page of the machine is on the free list, or loose, or used by
      exactly one live directory, and only one of these. */
  lemma PagesConserved(m: Mem, own: Owners, p: nat)
    requires Good(m, own) && p in own
    ensures p in m.freelist <==> own[p] == Free
    ensures own[p] != Free && own[p] != Loose <==> exists d :: d in m.dirs && Uses(m, d, p)
    ensures forall d, e :: d in m.dirs && e in m.dirs && Uses(m, d, p) && Uses(m, e, p) ==> d == e
  {
    hide Uses;
    assert DirOk(m, own, p) && TabBack(m, own, p) && UserBack(m, own, p);
    forall d | d in m.dirs ensures Uses(m, d, p) <==> Belongs(own, d, p) {
      UsesOwned(m, own, p, d);
    }
    if own[p].Tab? || own[p].User? {
      assert Uses(m, own[p].d, p);
    } else if own[p] == Dir {
      assert Uses(m, p, p);
    }
  }
}
