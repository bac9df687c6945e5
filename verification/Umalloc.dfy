/** umalloc.c: the user allocator, a circular free list of blocks in address order. Addresses
    and sizes count Header-sized units of 8 bytes; address 0 is the null pointer. */
module Umalloc {
  datatype Option<T> = None | Some(value: T)

  /** `union header`: the next free block and this block's size in units. */
  datatype Header = Header(ptr: nat, size: nat)

  const TWO32 := 0x1_0000_0000

  // ---- 32-bit request arithmetic ----

  /** `nunits`, in 32-bit unsigned arithmetic. */
  function Units(nbytes: nat): (n: nat)
    requires nbytes < TWO32
    ensures 1 <= n <= 0x2000_0000
  {
    ((nbytes + 7) % TWO32) / 8 + 1
  }

  /** The number of units morecore asks for. */
  function CoreUnits(nu: nat): (n: nat)
    ensures n >= nu
  {
    if nu < 4096 then 4096 else nu
  }

  /** What sbrk, whose parameter is a signed int, receives for `nu` units. */
  function SbrkArg(nu: nat): (n: int) {
    var w := (nu * 8) % TWO32;
    if w < 0x8000_0000 then w else w - TWO32
  }

  /** The block is big enough for the request exactly when rounding up does not wrap. */
  lemma UnitsEnough(nbytes: nat)
    requires nbytes < TWO32
    ensures 8 * (Units(nbytes) - 1) >= nbytes <==> nbytes <= TWO32 - 8
    ensures nbytes > TWO32 - 8 ==> Units(nbytes) == 1
  {
  }

  /** A request means the same to malloc, morecore and sbrk exactly up to 2 GB - 16. */
  lemma RequestHonoured(nbytes: nat)
    requires nbytes < TWO32
    ensures var nu := CoreUnits(Units(nbytes));
            8 * (Units(nbytes) - 1) >= nbytes && SbrkArg(nu) == 8 * nu <==> nbytes <= 0x8000_0000 - 16
  {
  }

  /** Just above that, sbrk is asked to give memory back; near 4 GB the block has no payload. */
  lemma RequestMisread()
    ensures SbrkArg(CoreUnits(Units(0x7FFF_FFF1))) == -0x8000_0000
    ensures SbrkArg(CoreUnits(Units(0xFFFF_FFF8))) == 0
    ensures Units(0xFFFF_FFF9) == 1
  {
  }

  // ---- blocks tile the memory obtained from sbrk ----

  ghost predicate Owns(owner: map<nat, nat>, a: nat, n: nat) {
    forall u :: a <= u < a + n ==> u in owner && owner[u] == a
  }

  ghost predicate Covers(owner: map<nat, nat>, blk: map<nat, nat>) {
    forall a :: a in blk ==> blk[a] >= 1 && Owns(owner, a, blk[a])
  }

  ghost predicate Within(a: nat, u: nat, blk: map<nat, nat>) {
    a in blk && a <= u < a + blk[a]
  }

  /** `owner` sends every unit to the block holding it: the blocks are disjoint and cover all. */
  ghost predicate Tiles(owner: map<nat, nat>, blk: map<nat, nat>) {
    Covers(owner, blk) && forall u :: u in owner ==> Within(owner[u], u, blk)
  }

  ghost function Merged(owner: map<nat, nat>, a: nat, b: nat): (r: map<nat, nat>) {
    map u | u in owner :: if owner[u] == b then a else owner[u]
  }

  lemma MergeCovers(owner: map<nat, nat>, blk: map<nat, nat>, a: nat, b: nat)
    requires Covers(owner, blk) && a in blk && b in blk && a + blk[a] == b
    ensures Covers(Merged(owner, a, b), (blk - {b})[a := blk[a] + blk[b]])
  {
    var o, k := Merged(owner, a, b), (blk - {b})[a := blk[a] + blk[b]];
    assert Owns(owner, a, blk[a]) && Owns(owner, b, blk[b]);
    forall x | x in k ensures k[x] >= 1 && Owns(o, x, k[x]) {
      if x != a {
        assert Owns(owner, x, blk[x]);
      }
    }
  }

  lemma MergeTiles(owner: map<nat, nat>, blk: map<nat, nat>, a: nat, b: nat)
    requires Tiles(owner, blk) && a in blk && b in blk && a + blk[a] == b
    ensures Tiles(Merged(owner, a, b), (blk - {b})[a := blk[a] + blk[b]])
  {
    var o, k := Merged(owner, a, b), (blk - {b})[a := blk[a] + blk[b]];
    MergeCovers(owner, blk, a, b);
    forall u | u in o ensures Within(o[u], u, k) {
      assert Within(owner[u], u, blk);
    }
  }

  ghost function Cut(owner: map<nat, nat>, a: nat, b: nat): (r: map<nat, nat>) {
    map u | u in owner :: if owner[u] == a && u >= b then b else owner[u]
  }

  /** A block starts at none of the other units of a block. */
  lemma NotABlock(owner: map<nat, nat>, blk: map<nat, nat>, a: nat, b: nat)
    requires Covers(owner, blk) && a in blk && a < b < a + blk[a]
    ensures b !in blk
  {
    assert Owns(owner, a, blk[a]) && owner[b] == a;
  }

  lemma CutCovers(owner: map<nat, nat>, blk: map<nat, nat>, a: nat, n: nat)
    requires Covers(owner, blk) && a in blk && 0 < n < blk[a]
    ensures var b := a + blk[a] - n; Covers(Cut(owner, a, b), blk[a := blk[a] - n][b := n])
  {
    var b := a + blk[a] - n;
    NotABlock(owner, blk, a, b);
    assert Owns(owner, a, blk[a]);
    var o, k := Cut(owner, a, b), blk[a := blk[a] - n][b := n];
    forall x | x in k ensures k[x] >= 1 && Owns(o, x, k[x]) {
      if x != a && x != b {
        assert Owns(owner, x, blk[x]);
      }
    }
  }

  lemma CutTiles(owner: map<nat, nat>, blk: map<nat, nat>, a: nat, n: nat)
    requires Tiles(owner, blk) && a in blk && 0 < n < blk[a]
    ensures var b := a + blk[a] - n; b !in blk && Tiles(Cut(owner, a, b), blk[a := blk[a] - n][b := n])
  {
    hide Covers;
    var b := a + blk[a] - n;
    NotABlock(owner, blk, a, b);
    CutCovers(owner, blk, a, n);
    var o, k := Cut(owner, a, b), blk[a := blk[a] - n][b := n];
    forall u | u in o ensures Within(o[u], u, k) {
      assert Within(owner[u], u, blk);
    }
  }

  ghost function Region(p: nat, n: nat): (r: map<nat, nat>)
    ensures |r| == n && forall u :: (u in r <==> p <= u < p + n) && (u in r ==> r[u] == p)
  {
    if n == 0 then map[] else Region(p, n - 1)[p + n - 1 := p]
  }

  ghost function Added(owner: map<nat, nat>, p: nat, n: nat): (r: map<nat, nat>) {
    map u | u in owner.Keys + Region(p, n).Keys :: if u in owner then owner[u] else p
  }

  ghost predicate Fresh(owner: map<nat, nat>, p: nat, n: nat) {
    forall u :: p <= u < p + n ==> u !in owner
  }

  lemma FreshNotABlock(owner: map<nat, nat>, blk: map<nat, nat>, p: nat, n: nat)
    requires Covers(owner, blk) && n > 0 && Fresh(owner, p, n)
    ensures p !in blk
  {
    assert p !in owner;
  }

  lemma OwnsMore(owner: map<nat, nat>, p: nat, n: nat, x: nat, m: nat)
    requires Owns(owner, x, m)
    ensures Owns(Added(owner, p, n), x, m)
  {
    hide Region;
  }

  lemma OwnsNew(owner: map<nat, nat>, p: nat, n: nat)
    requires Fresh(owner, p, n)
    ensures Owns(Added(owner, p, n), p, n)
  {
    hide Region;
    var r := Region(p, n);
    forall u | p <= u < p + n ensures u in Added(owner, p, n) && Added(owner, p, n)[u] == p {
      assert u in r;
    }
  }

  lemma AddCovers(owner: map<nat, nat>, blk: map<nat, nat>, p: nat, n: nat)
    requires Covers(owner, blk) && n > 0 && Fresh(owner, p, n)
    ensures Covers(Added(owner, p, n), blk[p := n])
  {
    hide Owns, Added, Fresh;
    var k := blk[p := n];
    forall x | x in k ensures k[x] >= 1 && Owns(Added(owner, p, n), x, k[x]) {
      if x == p {
        OwnsNew(owner, p, n);
      } else {
        OwnsMore(owner, p, n, x, blk[x]);
      }
    }
  }

  lemma AddTiles(owner: map<nat, nat>, blk: map<nat, nat>, p: nat, n: nat)
    requires Tiles(owner, blk) && n > 0 && Fresh(owner, p, n)
    ensures p !in blk && Tiles(Added(owner, p, n), blk[p := n])
  {
    hide Covers, Region;
    FreshNotABlock(owner, blk, p, n);
    AddCovers(owner, blk, p, n);
    var o := Added(owner, p, n);
    forall u | u in o ensures Within(o[u], u, blk[p := n]) {
      if u in owner {
        assert Within(owner[u], u, blk);
      }
    }
  }

  lemma AddSize(owner: map<nat, nat>, p: nat, n: nat)
    requires Fresh(owner, p, n)
    ensures |Added(owner, p, n)| == |owner| + n
  {
    var r := Region(p, n);
    assert Added(owner, p, n).Keys == owner.Keys + r.Keys && owner.Keys !! r.Keys;
  }

  ghost function Pick(s: set<nat>): (a: nat)
    requires s != {}
    ensures a in s
  {
    var a :| a in s; a
  }

  /** Units in the blocks of `s`. */
  ghost function Total(s: set<nat>, blk: map<nat, nat>): (n: nat)
    requires s <= blk.Keys
  {
    if s == {} then 0 else var a := Pick(s); blk[a] + Total(s - {a}, blk)
  }

  ghost function OwnedBy(owner: map<nat, nat>, s: set<nat>): (r: set<nat>) {
    set u | u in owner && owner[u] in s
  }

  lemma OwnedByOne(s: set<nat>, owner: map<nat, nat>, blk: map<nat, nat>, a: nat)
    requires Tiles(owner, blk) && s <= blk.Keys && a in s
    ensures |OwnedBy(owner, s)| == |OwnedBy(owner, s - {a})| + blk[a]
  {
    var r := Region(a, blk[a]).Keys;
    assert |r| == blk[a];
    assert Owns(owner, a, blk[a]);
    forall u ensures u in OwnedBy(owner, s) <==> u in OwnedBy(owner, s - {a}) || u in r {
      if u in owner && owner[u] == a {
        assert Within(a, u, blk);
      }
    }
    assert OwnedBy(owner, s) == OwnedBy(owner, s - {a}) + r;
    assert OwnedBy(owner, s - {a}) !! r;
  }

  /** The units owned by a set of blocks are as many as their sizes add up to. */
  lemma {:induction false} TotalIsOwned(s: set<nat>, owner: map<nat, nat>, blk: map<nat, nat>)
    requires Tiles(owner, blk) && s <= blk.Keys
    ensures Total(s, blk) == |OwnedBy(owner, s)|
    decreases s
  {
    hide Tiles;
    if s == {} {
      assert OwnedBy(owner, s) == {};
    } else {
      var a := Pick(s);
      TotalIsOwned(s - {a}, owner, blk);
      OwnedByOne(s, owner, blk, a);
    }
  }

  // ---- the free list ----

  function Next(i: nat, n: nat): (j: nat)
    requires i < n
    ensures j < n
  {
    if i + 1 == n then 0 else i + 1
  }

  ghost predicate Ordered(free: seq<nat>, hdr: map<nat, Header>)
    requires forall i :: 0 <= i < |free| ==> free[i] in hdr
  {
    forall i, j :: 0 <= i < j < |free| ==> free[i] < free[j] && free[i] + hdr[free[i]].size <= free[j]
  }

  ghost predicate PointsOn(free: seq<nat>, hdr: map<nat, Header>, i: nat)
    requires i < |free| && free[i] in hdr
  {
    hdr[free[i]].ptr == free[Next(i, |free|)]
  }

  /** `free` lists the ring in address order from `base`, whose block is empty. */
  ghost predicate Ring(base: nat, free: seq<nat>, hdr: map<nat, Header>) {
    && |free| > 0 && free[0] == base && base > 0
    && (forall i :: 0 <= i < |free| ==> free[i] in hdr)
    && hdr[base].size == 0
    && (forall i :: 0 <= i < |free| ==> PointsOn(free, hdr, i))
    && Ordered(free, hdr)
  }

  /** Free block `i` does not end where the next one begins. */
  ghost predicate Gap(free: seq<nat>, hdr: map<nat, Header>, i: nat)
    requires i < |free| && free[i] in hdr
  {
    i + 1 < |free| ==> free[i] + hdr[free[i]].size != free[i + 1]
  }

  function Inserted(free: seq<nat>, j: nat, b: nat): (r: seq<nat>)
    requires j < |free|
  {
    seq(|free| + 1, i requires 0 <= i < |free| + 1 => if i <= j then free[i] else if i == j + 1 then b else free[i - 1])
  }

  function Dropped(free: seq<nat>, j: nat): (r: seq<nat>)
    requires j < |free|
  {
    seq(|free| - 1, i requires 0 <= i < |free| - 1 => if i < j then free[i] else free[i + 1])
  }

  function Link(hdr: map<nat, Header>, p: nat, b: nat): (r: map<nat, Header>)
    requires p in hdr && b in hdr
  {
    hdr[b := hdr[b].(ptr := hdr[p].ptr)][p := hdr[p].(ptr := b)]
  }

  lemma LinkOrdered(free: seq<nat>, hdr: map<nat, Header>, j: nat, b: nat)
    requires (forall i :: 0 <= i < |free| ==> free[i] in hdr) && Ordered(free, hdr)
    requires j < |free| && b in hdr && hdr[b].size > 0
    requires free[j] < b && free[j] + hdr[free[j]].size <= b
    requires j + 1 < |free| ==> b + hdr[b].size <= free[j + 1]
    ensures var f, h := Inserted(free, j, b), Link(hdr, free[j], b);
            (forall i :: 0 <= i < |f| ==> f[i] in h) && Ordered(f, h)
  {
    var f: seq<nat> := Inserted(free, j, b);
    var h := Link(hdr, free[j], b);
    forall i: nat, k: nat | i < k < |f| ensures f[i] < f[k] && f[i] + h[f[i]].size <= f[k] {
      assert h[f[i]].size == hdr[f[i]].size;
      if i == j + 1 {
        assert free[j + 1] <= f[k];
      } else if k == j + 1 {
        assert free[i] <= free[j];
      }
    }
  }

  lemma LinkRing(base: nat, free: seq<nat>, hdr: map<nat, Header>, j: nat, b: nat)
    requires Ring(base, free, hdr) && j < |free| && b in hdr && hdr[b].size > 0
    requires free[j] < b && free[j] + hdr[free[j]].size <= b
    requires j + 1 < |free| ==> b + hdr[b].size <= free[j + 1]
    ensures Ring(base, Inserted(free, j, b), Link(hdr, free[j], b))
  {
    var f, h := Inserted(free, j, b), Link(hdr, free[j], b);
    forall i | 0 <= i < |free| ensures free[i] != b { }
    LinkOrdered(free, hdr, j, b);
    hide Ordered;
    forall i | 0 <= i < |f| ensures PointsOn(f, h, i) {
      if i <= j {
        assert PointsOn(free, hdr, i);
      } else if i == j + 1 {
        assert PointsOn(free, hdr, j);
      } else {
        assert PointsOn(free, hdr, i - 1);
      }
    }
  }

  function Join(hdr: map<nat, Header>, p: nat, b: nat): (r: map<nat, Header>)
    requires p in hdr && b in hdr
  {
    hdr[p := Header(hdr[b].ptr, hdr[p].size + hdr[b].size)]
  }

  lemma JoinOrdered(free: seq<nat>, hdr: map<nat, Header>, j: nat)
    requires (forall i :: 0 <= i < |free| ==> free[i] in hdr) && Ordered(free, hdr)
    requires j + 1 < |free| && free[j] + hdr[free[j]].size == free[j + 1]
    ensures var f, h := Dropped(free, j + 1), Join(hdr, free[j], free[j + 1]);
            (forall i :: 0 <= i < |f| ==> f[i] in h) && Ordered(f, h)
  {
  }

  lemma JoinRing(base: nat, free: seq<nat>, hdr: map<nat, Header>, j: nat)
    requires Ring(base, free, hdr) && j + 1 < |free| && free[j] + hdr[free[j]].size == free[j + 1]
    ensures Ring(base, Dropped(free, j + 1), Join(hdr, free[j], free[j + 1]))
  {
    var f, h := Dropped(free, j + 1), Join(hdr, free[j], free[j + 1]);
    JoinOrdered(free, hdr, j);
    hide Ordered;
    assert PointsOn(free, hdr, j + 1);
    forall i | 0 <= i < |f| ensures PointsOn(f, h, i) {
      assert PointsOn(free, hdr, if i <= j then i else i + 1);
    }
  }

  function Unlink(hdr: map<nat, Header>, p: nat, b: nat): (r: map<nat, Header>)
    requires p in hdr && b in hdr
  {
    hdr[p := hdr[p].(ptr := hdr[b].ptr)]
  }

  lemma UnlinkOrdered(free: seq<nat>, hdr: map<nat, Header>, j: nat)
    requires (forall i :: 0 <= i < |free| ==> free[i] in hdr) && Ordered(free, hdr) && j + 1 < |free|
    ensures var f, h := Dropped(free, j + 1), Unlink(hdr, free[j], free[j + 1]);
            (forall i :: 0 <= i < |f| ==> f[i] in h) && Ordered(f, h)
  {
  }

  lemma UnlinkRing(base: nat, free: seq<nat>, hdr: map<nat, Header>, j: nat)
    requires Ring(base, free, hdr) && j + 1 < |free|
    ensures Ring(base, Dropped(free, j + 1), Unlink(hdr, free[j], free[j + 1]))
  {
    var f, h := Dropped(free, j + 1), Unlink(hdr, free[j], free[j + 1]);
    UnlinkOrdered(free, hdr, j);
    hide Ordered;
    assert PointsOn(free, hdr, j + 1);
    forall i | 0 <= i < |f| ensures PointsOn(f, h, i) {
      assert PointsOn(free, hdr, if i <= j then i else i + 1);
    }
  }

  lemma LinkGap(base: nat, free: seq<nat>, hdr: map<nat, Header>, j: nat, b: nat, i: nat)
    requires Ring(base, free, hdr) && j < |free| && b in hdr && b !in free && i <= |free| && i != j && i != j + 1
    requires Gap(free, hdr, if i <= j then i else i - 1)
    ensures var f, h := Inserted(free, j, b), Link(hdr, free[j], b); f[i] in h && Gap(f, h, i)
  {
    hide PointsOn;
  }

  lemma JoinGap(base: nat, free: seq<nat>, hdr: map<nat, Header>, j: nat, i: nat)
    requires Ring(base, free, hdr) && j + 1 < |free| && free[j] + hdr[free[j]].size == free[j + 1]
    requires i < |free| - 1 && Gap(free, hdr, if i < j then i else i + 1)
    ensures var f, h := Dropped(free, j + 1), Join(hdr, free[j], free[j + 1]); f[i] in h && Gap(f, h, i)
  {
    hide PointsOn;
  }

  // ---- the allocator's invariant ----

  ghost predicate Listed(free: seq<nat>, live: set<nat>, blk: map<nat, nat>) {
    && (forall i :: 1 <= i < |free| ==> free[i] in blk && free[i] !in live)
    && (forall a :: a in blk && a !in live ==> a in free)
  }

  /** Every block of `blk` is live or on the free list, never both; headers hold the sizes. */
  ghost predicate Sorted(base: nat, hdr: map<nat, Header>, free: seq<nat>, live: set<nat>, blk: map<nat, nat>) {
    && (forall a :: a in blk ==> a > base && a in hdr && hdr[a].size == blk[a])
    && (forall a :: a in live ==> a in blk)
    && Listed(free, live, blk)
  }

  /** The free list, the live blocks, all block sizes and the owner of every unit. */
  datatype Book = Book(free: seq<nat>, live: set<nat>, blk: map<nat, nat>, owner: map<nat, nat>)

  ghost predicate Loose(base: nat, hdr: map<nat, Header>, g: Book) {
    Ring(base, g.free, hdr) && Sorted(base, hdr, g.free, g.live, g.blk) && Tiles(g.owner, g.blk)
  }

  /** The allocator's invariant: the ring, the tiling, and no two free blocks touching. */
  ghost predicate Good(base: nat, hdr: map<nat, Header>, g: Book) {
    Loose(base, hdr, g) && forall i :: 0 <= i < |g.free| ==> Gap(g.free, hdr, i)
  }

  /** Two blocks in address order do not overlap. */
  lemma BlocksDisjoint(owner: map<nat, nat>, blk: map<nat, nat>, a: nat, b: nat)
    requires Covers(owner, blk) && a in blk && b in blk && a < b
    ensures a + blk[a] <= b
  {
    if b < a + blk[a] {
      NotABlock(owner, blk, a, b);
      assert false;
    }
  }

  /** `bp` lies between ring entry `j` and the one after it. */
  ghost predicate Between(free: seq<nat>, bp: nat, j: nat) {
    j < |free| && free[j] < bp && (j + 1 < |free| ==> bp < free[j + 1])
  }

  lemma LinkFits(base: nat, hdr: map<nat, Header>, g: Book, bp: nat, j: nat)
    requires Loose(base, hdr, g) && bp in g.live && Between(g.free, bp, j)
    ensures hdr[bp].size > 0 && g.free[j] + hdr[g.free[j]].size <= bp
    ensures j + 1 < |g.free| ==> bp + hdr[bp].size <= g.free[j + 1]
  {
    hide Owns, Within, PointsOn, Ordered;
    if j > 0 {
      BlocksDisjoint(g.owner, g.blk, g.free[j], bp);
    }
    if j + 1 < |g.free| {
      BlocksDisjoint(g.owner, g.blk, bp, g.free[j + 1]);
    }
  }

  lemma LinkSorted(base: nat, hdr: map<nat, Header>, free: seq<nat>, live: set<nat>, blk: map<nat, nat>, bp: nat, j: nat)
    requires |free| > 0 && free[0] == base && (forall i :: 0 <= i < |free| ==> free[i] in hdr)
    requires Sorted(base, hdr, free, live, blk) && bp in live && j < |free|
    ensures Sorted(base, Link(hdr, free[j], bp), Inserted(free, j, bp), live - {bp}, blk)
  {
    var f, h := Inserted(free, j, bp), Link(hdr, free[j], bp);
    forall a | a in blk && a !in live - {bp} ensures a in f {
      if a == bp {
        assert f[j + 1] == a;
      } else {
        var i :| 0 <= i < |free| && free[i] == a;
        assert f[if i <= j then i else i + 1] == a;
      }
    }
  }

  lemma OffList(base: nat, hdr: map<nat, Header>, free: seq<nat>, live: set<nat>, blk: map<nat, nat>, bp: nat)
    requires Sorted(base, hdr, free, live, blk) && |free| > 0 && free[0] == base && bp in live
    ensures bp !in free
  {
  }

  lemma LooseLink(base: nat, hdr: map<nat, Header>, g: Book, bp: nat, j: nat) returns (h: map<nat, Header>, g': Book)
    requires Good(base, hdr, g) && bp in g.live && Between(g.free, bp, j)
    ensures h == Link(hdr, g.free[j], bp)
    ensures g' == g.(free := Inserted(g.free, j, bp), live := g.live - {bp})
    ensures Loose(base, h, g')
    ensures forall i :: 0 <= i < |g'.free| && i != j && i != j + 1 ==> Gap(g'.free, h, i)
  {
    LinkFits(base, hdr, g, bp, j);
    LinkRing(base, g.free, hdr, j, bp);
    LinkSorted(base, hdr, g.free, g.live, g.blk, bp, j);
    h, g' := Link(hdr, g.free[j], bp), g.(free := Inserted(g.free, j, bp), live := g.live - {bp});
    forall i | 0 <= i < |g'.free| && i != j && i != j + 1 ensures Gap(g'.free, h, i) {
      hide Tiles, Sorted, PointsOn, Gap;
      assert bp !in g.free by {
        OffList(base, hdr, g.free, g.live, g.blk, bp);
      }
      assert Gap(g.free, hdr, if i <= j then i else i - 1);
      LinkGap(base, g.free, hdr, j, bp, i);
    }
  }

  lemma Dropping(base: nat, hdr: map<nat, Header>, free: seq<nat>, j: nat)
    requires Ring(base, free, hdr) && j < |free|
    ensures forall i :: 0 <= i < |free| && i != j ==> free[i] in Dropped(free, j)
    ensures forall i :: 0 <= i < |free| - 1 ==> Dropped(free, j)[i] in free && Dropped(free, j)[i] != free[j]
  {
    hide PointsOn;
    var f := Dropped(free, j);
    forall i | 0 <= i < |free| && i != j ensures free[i] in f {
      assert f[if i < j then i else i - 1] == free[i];
    }
    forall i | 0 <= i < |f| ensures f[i] in free && f[i] != free[j] {
      assert f[i] == free[if i < j then i else i + 1];
    }
  }

  lemma DropListed(base: nat, hdr: map<nat, Header>, free: seq<nat>, live: set<nat>, blk: map<nat, nat>, j: nat)
    requires Ring(base, free, hdr) && Listed(free, live, blk) && 0 < j < |free|
    ensures Listed(Dropped(free, j), live, blk - {free[j]})
  {
    hide PointsOn, Ordered;
    Dropping(base, hdr, free, j);
    var f, k := Dropped(free, j), blk - {free[j]};
    forall i | 1 <= i < |f| ensures f[i] in k && f[i] !in live {
      assert f[i] == free[if i < j then i else i + 1];
    }
  }

  lemma ListedGrow(free: seq<nat>, live: set<nat>, blk: map<nat, nat>, a: nat, n: nat)
    requires Listed(free, live, blk) && a in blk
    ensures Listed(free, live, blk[a := n])
  {
  }

  lemma JoinSorted(base: nat, hdr: map<nat, Header>, free: seq<nat>, live: set<nat>, blk: map<nat, nat>, j: nat)
    requires Ring(base, free, hdr) && Sorted(base, hdr, free, live, blk) && 0 < j && j + 1 < |free|
    ensures var a, b := free[j], free[j + 1];
            Sorted(base, Join(hdr, a, b), Dropped(free, j + 1), live, (blk - {b})[a := blk[a] + blk[b]])
  {
    assert free[j] != free[j + 1] && free[j + 1] !in live;
    DropListed(base, hdr, free, live, blk, j + 1);
    ListedGrow(Dropped(free, j + 1), live, blk - {free[j + 1]}, free[j], blk[free[j]] + blk[free[j + 1]]);
    hide Ring, Listed, Dropped;
  }

  ghost function Joined(g: Book, j: nat): (r: Book)
    requires j + 1 < |g.free| && g.free[j] in g.blk && g.free[j + 1] in g.blk
  {
    var a, b := g.free[j], g.free[j + 1];
    Book(Dropped(g.free, j + 1), g.live, (g.blk - {b})[a := g.blk[a] + g.blk[b]], Merged(g.owner, a, b))
  }

  lemma LooseJoin(base: nat, hdr: map<nat, Header>, g: Book, j: nat)
    requires Loose(base, hdr, g) && j + 1 < |g.free|
    requires g.free[j] + hdr[g.free[j]].size == g.free[j + 1]
    ensures 0 < j && g.free[j] in g.blk && g.free[j + 1] in g.blk
    ensures Loose(base, Join(hdr, g.free[j], g.free[j + 1]), Joined(g, j))
  {
    hide PointsOn, Covers, Within;
    JoinRing(base, g.free, hdr, j);
    JoinSorted(base, hdr, g.free, g.live, g.blk, j);
    MergeTiles(g.owner, g.blk, g.free[j], g.free[j + 1]);
  }

  /** A step gives up no memory and leaves the blocks of `live` where they are. */
  ghost predicate KeepsLive(g: Book, g': Book, live: set<nat>) {
    && g.owner.Keys <= g'.owner.Keys
    && (forall a :: a in live ==> a in g.blk && a in g'.blk && g'.blk[a] == g.blk[a])
    && (forall u :: u in g.owner && g.owner[u] in live ==> g'.owner[u] == g.owner[u])
  }

  lemma KeepsLiveTwice(g1: Book, g2: Book, g3: Book, live: set<nat>)
    requires KeepsLive(g1, g2, live) && KeepsLive(g2, g3, live)
    ensures KeepsLive(g1, g3, live)
  {
  }

  /** Join ring entries `j` and `j + 1` if they touch. */
  lemma Coalesce(base: nat, hdr: map<nat, Header>, g: Book, j: nat) returns (h: map<nat, Header>, g': Book)
    requires Loose(base, hdr, g) && j < |g.free|
    requires forall i :: 0 <= i < |g.free| && i != j && i + 1 != j ==> Gap(g.free, hdr, i)
    ensures Loose(base, h, g') && g'.live == g.live && g'.owner.Keys == g.owner.Keys && KeepsLive(g, g', g.live)
    ensures Gap(g.free, hdr, j) ==> h == hdr && g' == g
    ensures !Gap(g.free, hdr, j) ==> h == Join(hdr, g.free[j], g.free[j + 1]) && g'.free == Dropped(g.free, j + 1)
    ensures forall i :: 0 <= i < |g'.free| && i + 1 != j ==> Gap(g'.free, h, i)
    ensures j > 0 && Gap(g.free, hdr, j - 1) ==> Gap(g'.free, h, j - 1)
  {
    h, g' := hdr, g;
    if !Gap(g.free, hdr, j) {
      LooseJoin(base, hdr, g, j);
      h, g' := Join(hdr, g.free[j], g.free[j + 1]), Joined(g, j);
      assert KeepsLive(g, g', g.live) by {
        assert g.free[j] !in g.live && g.free[j + 1] !in g.live;
      }
      forall i | 0 <= i < |g'.free| && (i + 1 != j || Gap(g.free, hdr, i)) ensures Gap(g'.free, h, i) {
        JoinGap(base, g.free, hdr, j, i);
      }
    }
  }

  // ---- free ----

  /** The headers after free(bp + 1) has stopped its search at `p`. */
  function FreedHeaders(hdr: map<nat, Header>, p: nat, bp: nat): (r: map<nat, Header>)
    requires p in hdr && bp in hdr && hdr[p].ptr in hdr
  {
    var q := hdr[p].ptr;
    var h1 := if bp + hdr[bp].size == q then hdr[bp := Header(hdr[q].ptr, hdr[bp].size + hdr[q].size)]
              else hdr[bp := hdr[bp].(ptr := q)];
    if p + h1[p].size == bp then h1[p := Header(h1[bp].ptr, h1[p].size + h1[bp].size)]
    else h1[p := h1[p].(ptr := bp)]
  }

  /** free's two ifs, as linking the block in and then joining it to the right and to the left. */
  lemma FreedInSteps(hdr: map<nat, Header>, p: nat, bp: nat)
    requires p in hdr && bp in hdr && hdr[p].ptr in hdr && p != bp && hdr[p].ptr != bp && hdr[bp].size > 0
    requires hdr[p].ptr == p || hdr[p].ptr < bp ==> bp + hdr[bp].size != hdr[p].ptr
    ensures var q := hdr[p].ptr;
            var h1 := Link(hdr, p, bp);
            var h2 := if bp + h1[bp].size == q then Join(h1, bp, q) else h1;
            var h3 := if p + h2[p].size == bp then Join(h2, p, bp) else h2;
            FreedHeaders(hdr, p, bp) == h3
  {
  }

  function SizeIn(hdr: map<nat, Header>, a: nat): (n: nat) {
    if a in hdr then hdr[a].size else 0
  }

  /** Some block on the list has at least `n` units. */
  ghost predicate Big(hdr: map<nat, Header>, free: seq<nat>, n: nat) {
    exists i :: 0 <= i < |free| && free[i] in hdr && hdr[free[i]].size >= n
  }

  lemma StopFacts(base: nat, hdr: map<nat, Header>, g: Book, bp: nat, j: nat)
    requires Loose(base, hdr, g) && bp in g.live && Between(g.free, bp, j)
    ensures g.free[j] in hdr && bp in hdr && hdr[bp].size > 0 && base < bp && hdr[g.free[j]].ptr in hdr
    ensures hdr[g.free[j]].ptr == if j + 1 < |g.free| then g.free[j + 1] else base
  {
    hide Ordered, Covers, Listed;
    LinkFits(base, hdr, g, bp, j);
    assert PointsOn(g.free, hdr, j);
  }

  lemma Freed(base: nat, hdr: map<nat, Header>, g: Book, bp: nat, j: nat) returns (g': Book)
    requires Good(base, hdr, g) && bp in g.live && Between(g.free, bp, j)
    ensures g.free[j] in hdr && bp in hdr && hdr[g.free[j]].ptr in hdr
    ensures Good(base, FreedHeaders(hdr, g.free[j], bp), g')
    ensures g'.live == g.live - {bp} && g'.owner.Keys == g.owner.Keys && KeepsLive(g, g', g'.live)
    ensures g.free[j] in g'.free && Big(FreedHeaders(hdr, g.free[j], bp), g'.free, hdr[bp].size)
  {
    hide Loose;
    StopFacts(base, hdr, g, bp, j);
    var h1, g1 := LooseLink(base, hdr, g, bp, j);
    var h2, g2 := Coalesce(base, h1, g1, j + 1);
    assert g1.free[j] == g.free[j] && g1.free[j + 1] == bp && (j + 1 < |g.free| ==> g1.free[j + 2] == g.free[j + 1]);
    hide Inserted;
    assert g2.free[j] == g.free[j] && g2.free[j + 1] == bp;
    var h3, g3 := Coalesce(base, h2, g2, j);
    g' := g3;
    FreedInSteps(hdr, g.free[j], bp);
    assert hdr[bp].size <= h2[bp].size;
    assert Big(h3, g3.free, hdr[bp].size) by {
      assert g3.free[if Gap(g2.free, h2, j) then j + 1 else j] in h3;
    }
    hide FreedHeaders, Big, Link, Join;
    assert g3.free[j] == g.free[j];
    KeepsLiveTwice(g1, g2, g3, g.live - {bp});
    hide KeepsLive;
  }

  // ---- malloc ----

  lemma TakeGap(base: nat, free: seq<nat>, hdr: map<nat, Header>, j: nat, i: nat)
    requires Ring(base, free, hdr) && j + 1 < |free| && i < |free| - 1
    requires forall k :: 0 <= k < |free| ==> Gap(free, hdr, k)
    ensures var f, h := Dropped(free, j + 1), Unlink(hdr, free[j], free[j + 1]); f[i] in h && Gap(f, h, i)
  {
    hide PointsOn;
    assert Gap(free, hdr, i) && (i < |free| - 1 ==> Gap(free, hdr, i + 1));
  }

  lemma TakeListed(free: seq<nat>, live: set<nat>, blk: map<nat, nat>, b: nat)
    requires Listed(free, live, blk - {b})
    ensures Listed(free, live + {b}, blk)
  {
  }

  lemma TakeSorted(base: nat, hdr: map<nat, Header>, g: Book, j: nat)
    requires Loose(base, hdr, g) && j + 1 < |g.free|
    ensures Sorted(base, Unlink(hdr, g.free[j], g.free[j + 1]), Dropped(g.free, j + 1), g.live + {g.free[j + 1]}, g.blk)
  {
    hide Tiles, PointsOn, Ordered;
    DropListed(base, hdr, g.free, g.live, g.blk, j + 1);
    var b := g.free[j + 1];
    TakeListed(Dropped(g.free, j + 1), g.live, g.blk, b);
    hide Listed, Dropped;
  }

  /** malloc's exact fit: the whole block leaves the list. */
  lemma Taken(base: nat, hdr: map<nat, Header>, g: Book, j: nat) returns (g': Book)
    requires Good(base, hdr, g) && j + 1 < |g.free|
    ensures Good(base, Unlink(hdr, g.free[j], g.free[j + 1]), g')
    ensures g' == g.(free := Dropped(g.free, j + 1), live := g.live + {g.free[j + 1]})
    ensures g.free[j] in g'.free && KeepsLive(g, g', g.live)
  {
    hide Tiles, PointsOn, Ordered;
    var h := Unlink(hdr, g.free[j], g.free[j + 1]);
    g' := g.(free := Dropped(g.free, j + 1), live := g.live + {g.free[j + 1]});
    UnlinkRing(base, g.free, hdr, j);
    TakeSorted(base, hdr, g, j);
    forall i | 0 <= i < |g'.free| ensures g'.free[i] in h && Gap(g'.free, h, i) {
      TakeGap(base, g.free, hdr, j, i);
    }
    assert g'.free[j] == g.free[j];
  }

  /** Storing the size field of a header. */
  function SetSize(hdr: map<nat, Header>, a: nat, n: nat): (r: map<nat, Header>) {
    hdr[a := Header(if a in hdr then hdr[a].ptr else 0, n)]
  }

  function CutHeaders(hdr: map<nat, Header>, p: nat, n: nat): (r: map<nat, Header>)
    requires p in hdr && hdr[p].size > n
  {
    var h := SetSize(hdr, p, hdr[p].size - n);
    SetSize(h, p + h[p].size, n)
  }

  lemma SplitListed(free: seq<nat>, live: set<nat>, blk: map<nat, nat>, p: nat, b: nat, n: nat)
    requires Listed(free, live, blk) && b !in free && p in blk && n <= blk[p]
    ensures Listed(free, live + {b}, blk[p := blk[p] - n][b := n])
  {
  }

  lemma SplitKeeps(base: nat, hdr: map<nat, Header>, g: Book, j: nat, n: nat)
    requires Loose(base, hdr, g) && 0 < j < |g.free| && 0 < n < hdr[g.free[j]].size
    ensures var p := g.free[j];
            p in g.blk && p !in g.live && g.blk[p] == hdr[p].size && p + g.blk[p] - n !in g.blk
    ensures var p := g.free[j];
            var b := p + g.blk[p] - n;
            b > base && b !in g.free
            && KeepsLive(g, Book(g.free, g.live + {b}, g.blk[p := g.blk[p] - n][b := n], Cut(g.owner, p, b)), g.live)
  {
    hide PointsOn, Ordered;
    var p := g.free[j];
    NotABlock(g.owner, g.blk, p, p + g.blk[p] - n);
  }

  /** Blocks on the list may lose units at the end; other headers do not matter. */
  lemma SmallerBlocks(base: nat, free: seq<nat>, hdr: map<nat, Header>, h: map<nat, Header>)
    requires Ring(base, free, hdr)
    requires forall i :: 0 <= i < |free| ==> free[i] in h && h[free[i]].ptr == hdr[free[i]].ptr
    requires forall i :: 0 <= i < |free| ==> h[free[i]].size <= hdr[free[i]].size
    ensures Ring(base, free, h)
    ensures forall i :: 0 <= i < |free| && Gap(free, hdr, i) ==> Gap(free, h, i)
  {
    forall i | 0 <= i < |free| ensures PointsOn(free, h, i) {
      assert PointsOn(free, hdr, i);
    }
  }

  /** malloc's split: the tail of the block is given out and the rest stays on the list. */
  lemma Split(base: nat, hdr: map<nat, Header>, g: Book, j: nat, n: nat) returns (g': Book)
    requires Good(base, hdr, g) && 0 < j < |g.free| && 0 < n < hdr[g.free[j]].size
    ensures g.free[j] in g.blk
    ensures Good(base, CutHeaders(hdr, g.free[j], n), g')
    ensures var p := g.free[j];
            var b := p + g.blk[p] - n;
            g' == Book(g.free, g.live + {b}, g.blk[p := g.blk[p] - n][b := n], Cut(g.owner, p, b)) && b !in g.blk
    ensures KeepsLive(g, g', g.live)
  {
    hide PointsOn, Ordered, Covers, Within, Listed, Gap;
    SplitKeeps(base, hdr, g, j, n);
    var p := g.free[j];
    var b := p + g.blk[p] - n;
    g' := Book(g.free, g.live + {b}, g.blk[p := g.blk[p] - n][b := n], Cut(g.owner, p, b));
    CutTiles(g.owner, g.blk, p, n);
    assert b !in g.free;
    SmallerBlocks(base, g.free, hdr, CutHeaders(hdr, p, n));
    hide Tiles, Ring, Cut;
    SplitListed(g.free, g.live, g.blk, p, b, n);
  }

  lemma GrantSorted(base: nat, hdr: map<nat, Header>, g: Book, p: nat, n: nat)
    requires Ring(base, g.free, hdr) && Sorted(base, hdr, g.free, g.live, g.blk) && p > base && p !in g.blk
    ensures forall i :: 0 <= i < |g.free| ==> g.free[i] in hdr && g.free[i] != p
    ensures Sorted(base, SetSize(hdr, p, n), g.free, g.live + {p}, g.blk[p := n])
  {
    hide PointsOn, Ordered;
  }

  lemma GrantKeeps(base: nat, hdr: map<nat, Header>, g: Book, p: nat, n: nat)
    requires Sorted(base, hdr, g.free, g.live, g.blk) && p !in g.blk
    ensures KeepsLive(g, Book(g.free, g.live + {p}, g.blk[p := n], Added(g.owner, p, n)), g.live)
  {
    hide Listed, Region;
  }

  /** Memory fresh from sbrk, made into one block that free can take. */
  lemma Granted(base: nat, hdr: map<nat, Header>, g: Book, p: nat, n: nat) returns (g': Book)
    requires Good(base, hdr, g) && n > 0 && p > base && Fresh(g.owner, p, n)
    ensures g' == Book(g.free, g.live + {p}, g.blk[p := n], Added(g.owner, p, n))
    ensures Good(base, SetSize(hdr, p, n), g') && p !in g.blk && KeepsLive(g, g', g.live)
  {
    hide Ring, Tiles, Sorted, Gap, Fresh, Region;
    g' := Book(g.free, g.live + {p}, g.blk[p := n], Added(g.owner, p, n));
    AddTiles(g.owner, g.blk, p, n);
    GrantSorted(base, hdr, g, p, n);
    SmallerBlocks(base, g.free, hdr, SetSize(hdr, p, n));
    GrantKeeps(base, hdr, g, p, n);
  }

  /** Nothing is written to the units of the live blocks. */
  ghost predicate Untouched(hdr: map<nat, Header>, h: map<nat, Header>, owner: map<nat, nat>, live: set<nat>) {
    forall u :: u in owner && owner[u] in live ==> (u in h <==> u in hdr) && (u in h ==> h[u] == hdr[u])
  }

  /** Ring entries are not units of live blocks. */
  lemma RingNotLive(base: nat, hdr: map<nat, Header>, g: Book, j: nat, u: nat)
    requires Loose(base, hdr, g) && j < |g.free| && u in g.owner && g.owner[u] in g.live
    ensures u != g.free[j]
  {
    hide PointsOn, Ordered;
    assert Within(g.owner[u], u, g.blk);
    if j > 0 {
      assert Owns(g.owner, g.free[j], g.blk[g.free[j]]);
    }
  }

  ghost predicate OnlyAt(hdr: map<nat, Header>, h: map<nat, Header>, a: nat, b: nat) {
    forall u :: u != a && u != b ==> (u in h <==> u in hdr) && (u in h ==> h[u] == hdr[u])
  }

  lemma FreedOnlyAt(hdr: map<nat, Header>, p: nat, bp: nat)
    requires p in hdr && bp in hdr && hdr[p].ptr in hdr
    ensures OnlyAt(hdr, FreedHeaders(hdr, p, bp), p, bp)
  {
  }

  lemma CutOnlyAt(hdr: map<nat, Header>, p: nat, n: nat)
    requires p in hdr && hdr[p].size > n
    ensures OnlyAt(hdr, CutHeaders(hdr, p, n), p, p + hdr[p].size - n)
  {
  }

  lemma FreedUntouched(base: nat, hdr: map<nat, Header>, g: Book, bp: nat, j: nat)
    requires Good(base, hdr, g) && bp in g.live && Between(g.free, bp, j)
    ensures g.free[j] in hdr && bp in hdr && hdr[g.free[j]].ptr in hdr
    ensures Untouched(hdr, FreedHeaders(hdr, g.free[j], bp), g.owner, g.live - {bp})
  {
    StopFacts(base, hdr, g, bp, j);
    hide Ring, Listed, Within, Gap;
    assert Owns(g.owner, bp, g.blk[bp]);
    hide Covers, FreedHeaders;
    forall u | u in g.owner && g.owner[u] in g.live - {bp} ensures u != g.free[j] && u != bp {
      RingNotLive(base, hdr, g, j, u);
    }
    FreedOnlyAt(hdr, g.free[j], bp);
  }

  lemma TakenUntouched(base: nat, hdr: map<nat, Header>, g: Book, j: nat)
    requires Loose(base, hdr, g) && j + 1 < |g.free|
    ensures Untouched(hdr, Unlink(hdr, g.free[j], g.free[j + 1]), g.owner, g.live)
  {
    forall u | u in g.owner && g.owner[u] in g.live ensures u != g.free[j] {
      RingNotLive(base, hdr, g, j, u);
    }
    hide Sorted, Tiles, PointsOn, Ordered;
  }

  lemma SplitOwned(owner: map<nat, nat>, blk: map<nat, nat>, p: nat, n: nat)
    requires Tiles(owner, blk) && p in blk && 0 < n < blk[p]
    ensures var b := p + blk[p] - n; p in owner && owner[p] == p && b in owner && owner[b] == p
  {
    assert Owns(owner, p, blk[p]);
  }

  lemma SplitUntouched(base: nat, hdr: map<nat, Header>, g: Book, j: nat, n: nat)
    requires Loose(base, hdr, g) && 0 < j < |g.free| && 0 < n < hdr[g.free[j]].size
    ensures Untouched(hdr, CutHeaders(hdr, g.free[j], n), g.owner, g.live)
  {
    hide PointsOn, Ordered;
    var p := g.free[j];
    SplitKeeps(base, hdr, g, j, n);
    SplitOwned(g.owner, g.blk, p, n);
    CutOnlyAt(hdr, p, n);
    hide Loose, CutHeaders, KeepsLive;
  }

  lemma NotLive(base: nat, hdr: map<nat, Header>, g: Book, p: nat)
    requires Good(base, hdr, g) && p !in g.blk
    ensures p !in g.live
  {
  }

  lemma BigEnough(hdr: map<nat, Header>, free: seq<nat>, n: nat, m: nat)
    requires Big(hdr, free, n) && m <= n
    ensures Big(hdr, free, m)
  {
  }

  lemma GrantUntouched(hdr: map<nat, Header>, owner: map<nat, nat>, live: set<nat>, p: nat, n: nat)
    requires Fresh(owner, p, n) && n > 0
    ensures Untouched(hdr, SetSize(hdr, p, n), owner, live)
  {
  }

  lemma UntouchedTwice(h1: map<nat, Header>, h2: map<nat, Header>, h3: map<nat, Header>, g1: Book, g2: Book, live: set<nat>)
    requires Untouched(h1, h2, g1.owner, live) && Untouched(h2, h3, g2.owner, live) && KeepsLive(g1, g2, live)
    ensures Untouched(h1, h3, g1.owner, live)
  {
  }

  /** The largest ring entry below `bp`. */
  lemma {:induction false} PlaceExists(free: seq<nat>, bp: nat, n: nat) returns (j: nat)
    requires 0 < n <= |free| && free[0] < bp && bp !in free
    requires forall i, k :: 0 <= i < k < |free| ==> free[i] < free[k]
    requires n < |free| ==> bp < free[n]
    ensures Between(free, bp, j)
    decreases n
  {
    if free[n - 1] < bp {
      j := n - 1;
    } else {
      j := PlaceExists(free, bp, n - 1);
    }
  }

  /** free's search ends at `p`: between `p` and the next entry, or past the top of the ring. */
  ghost predicate PlaceStops(hdr: map<nat, Header>, p: nat, bp: nat)
    requires p in hdr
  {
    (bp > p && bp < hdr[p].ptr) || (p >= hdr[p].ptr && (bp > p || bp < hdr[p].ptr))
  }

  lemma PlaceFound(base: nat, hdr: map<nat, Header>, g: Book, bp: nat) returns (t: nat)
    requires Good(base, hdr, g) && bp in g.live
    ensures Between(g.free, bp, t)
  {
    OffList(base, hdr, g.free, g.live, g.blk, bp);
    hide Tiles, Listed, PointsOn, Gap;
    t := PlaceExists(g.free, bp, |g.free|);
  }

  /** The search ends at exactly one entry of the ring. */
  lemma PlaceStep(base: nat, hdr: map<nat, Header>, g: Book, bp: nat, j: nat, t: nat)
    requires Good(base, hdr, g) && bp in g.live && Between(g.free, bp, t) && j < |g.free|
    ensures var p := g.free[j];
            p in hdr && p > 0 && hdr[p].ptr == g.free[Next(j, |g.free|)] && (PlaceStops(hdr, p, bp) <==> j == t)
  {
    hide Tiles, Listed, Gap;
    assert PointsOn(g.free, hdr, j);
    assert bp != g.free[j] by {
      OffList(base, hdr, g.free, g.live, g.blk, bp);
    }
  }

  /** Ring entry `s` places after entry `k`. */
  function Around(k: nat, s: nat, n: nat): (i: nat)
    requires k < n && s <= n
    ensures i < n
  {
    if k + s < n then k + s else k + s - n
  }

  /** malloc's loop: entries `1..s` places after entry `k` are too small; `p` is entry `s`. */
  ghost predicate Searching(hdr: map<nat, Header>, free: seq<nat>, k: nat, s: nat, prevp: nat, p: nat, n: nat) {
    && k < |free| && 1 <= s <= |free|
    && prevp == free[Around(k, s - 1, |free|)] && p == free[Around(k, s, |free|)]
    && forall t :: 1 <= t < s ==> SizeIn(hdr, free[Around(k, t, |free|)]) < n
  }

  lemma SearchStart(base: nat, hdr: map<nat, Header>, g: Book, freep: nat, n: nat) returns (k: nat)
    requires Good(base, hdr, g) && freep in g.free
    ensures k < |g.free| && g.free[k] == freep && freep in hdr
    ensures Searching(hdr, g.free, k, 1, freep, hdr[freep].ptr, n)
  {
    k :| 0 <= k < |g.free| && g.free[k] == freep;
    assert PointsOn(g.free, hdr, k);
  }

  /** A block that is big enough is not `base`, so its predecessor is just before it in `free`. */
  lemma SearchHere(base: nat, hdr: map<nat, Header>, g: Book, k: nat, s: nat, prevp: nat, p: nat, n: nat)
    requires Good(base, hdr, g) && Searching(hdr, g.free, k, s, prevp, p, n) && n > 0
    ensures k < |g.free| && 1 <= s <= |g.free| && p in hdr && SizeIn(hdr, p) == hdr[p].size
    ensures var j := Around(k, s - 1, |g.free|);
            hdr[p].size >= n ==> j + 1 < |g.free| && prevp == g.free[j] && p == g.free[j + 1] && prevp > 0
    ensures hdr[p].size >= n ==> Big(hdr, g.free, n)
  {
    hide PointsOn, Tiles, Sorted, Gap;
  }

  lemma SearchNext(base: nat, hdr: map<nat, Header>, g: Book, k: nat, s: nat, prevp: nat, p: nat, n: nat)
    requires Good(base, hdr, g) && Searching(hdr, g.free, k, s, prevp, p, n) && SizeIn(hdr, p) < n
    ensures p in hdr && (p == g.free[k] <==> s == |g.free|)
    ensures s < |g.free| ==> Searching(hdr, g.free, k, s + 1, p, hdr[p].ptr, n)
    ensures s == |g.free| ==> !Big(hdr, g.free, n)
  {
    hide Tiles, Sorted, Gap;
    var m := |g.free|;
    assert PointsOn(g.free, hdr, Around(k, s, m));
    hide Ordered, PointsOn;
    if s == m {
      forall i | 0 <= i < m ensures SizeIn(hdr, g.free[i]) < n {
        assert i == Around(k, if i > k then i - k else i - k + m, m);
      }
    }
  }

  /** The units malloc gets from sbrk: none if some block on the list is big enough. */
  ghost function MustGrow(hdr: map<nat, Header>, free: seq<nat>, n: nat, sbrk: Option<nat>): (r: nat) {
    if Big(hdr, free, n) || sbrk.None? then 0 else CoreUnits(n)
  }

  lemma RingInHeaders(base: nat, free: seq<nat>, hdr: map<nat, Header>)
    requires Ring(base, free, hdr)
    ensures forall i :: 0 <= i < |free| ==> free[i] in hdr
  {
  }

  lemma Stored(base: nat, hdr: map<nat, Header>, g: Book, a: nat, u: nat, x: Header)
    requires Good(base, hdr, g) && a in g.live && a in g.blk && a < u < a + g.blk[a]
    ensures Good(base, hdr[u := x], g)
  {
    hide Ring, Gap, Listed, Within;
    NotABlock(g.owner, g.blk, a, u);
    assert Owns(g.owner, a, g.blk[a]);
    forall i: nat | i < |g.free| ensures u != g.free[i] {
      RingNotLive(base, hdr, g, i, u);
    }
    RingInHeaders(base, g.free, hdr);
    SmallerBlocks(base, g.free, hdr, hdr[u := x]);
  }

  lemma TakeFacts(base: nat, hdr: map<nat, Header>, g: Book, j: nat)
    requires Good(base, hdr, g) && j + 1 < |g.free|
    ensures Loose(base, hdr, g) && g.free[j] in hdr
    ensures var p := g.free[j + 1]; p in hdr && p in g.blk && g.blk[p] == hdr[p].size && p !in g.live
    ensures forall a :: a in g.live ==> a in g.blk
  {
    hide Tiles, PointsOn, Ordered, Gap;
  }

  lemma NothingDone(h: Heap)
    requires h.Ready()
    ensures KeepsLive(h.g, h.g, h.g.live) && Untouched(h.hdr, h.hdr, h.g.owner, h.g.live)
  {
  }

  class Heap {
    const base: nat
    var hdr: map<nat, Header>
    var freep: nat
    ghost var g: Book
    ghost var obtained: nat

    ghost predicate Ready()
      reads this
    {
      freep != 0 && Good(base, hdr, g) && freep in g.free && |g.owner| == obtained
    }

    /** Before the first malloc there is no list; afterwards the invariant holds. */
    ghost predicate Valid()
      reads this
    {
      base > 0 && if freep == 0 then g == Book([], {}, map[], map[]) && obtained == 0 else Ready()
    }

    constructor (b: nat)
      requires b > 0
      ensures Valid() && base == b && g.live == {} && obtained == 0
    {
      base := b;
      hdr := map[];
      freep := 0;
      g := Book([], {}, map[], map[]);
      obtained := 0;
    }

    /** free's search: round the ring to the entry after which `bp` belongs. */
    method FindPlace(bp: nat) returns (p: nat, ghost j: nat)
      requires Ready() && bp in g.live
      ensures Between(g.free, bp, j) && p == g.free[j] && p > 0
    {
      hide Good;
      p := freep;
      j :| 0 <= j < |g.free| && g.free[j] == freep;
      ghost var t := PlaceFound(base, hdr, g, bp);
      PlaceStep(base, hdr, g, bp, j, t);
      while !(bp > p && bp < hdr[p].ptr)
        invariant 0 <= j < |g.free| && p == g.free[j] && p in hdr && p > 0
        invariant hdr[p].ptr == g.free[Next(j, |g.free|)]
        invariant PlaceStops(hdr, p, bp) <==> j == t
        decreases if j <= t then t - j else t - j + |g.free|
      {
        if p >= hdr[p].ptr && (bp > p || bp < hdr[p].ptr) {
          return;
        }
        p := hdr[p].ptr;
        j := Next(j, |g.free|);
        PlaceStep(base, hdr, g, bp, j, t);
      }
    }

    /** The two ifs of free. */
    method Relink(p: nat, bp: nat)
      requires p in hdr && bp in hdr && hdr[p].ptr in hdr
      modifies `hdr
      ensures hdr == FreedHeaders(old(hdr), p, bp)
    {
      if bp + hdr[bp].size == hdr[p].ptr {
        hdr := hdr[bp := Header(hdr[hdr[p].ptr].ptr, hdr[bp].size + hdr[hdr[p].ptr].size)];
      } else {
        hdr := hdr[bp := hdr[bp].(ptr := hdr[p].ptr)];
      }
      if p + hdr[p].size == bp {
        hdr := hdr[p := Header(hdr[bp].ptr, hdr[p].size + hdr[bp].size)];
      } else {
        hdr := hdr[p := hdr[p].(ptr := bp)];
      }
    }

    method Free(ap: nat)
      requires Ready() && base > 0 && ap > 0 && ap - 1 in g.live
      modifies this
      ensures Ready() && g.live == old(g.live) - {ap - 1}
      ensures g.owner.Keys == old(g.owner.Keys) && obtained == old(obtained) && KeepsLive(old(g), g, g.live)
      ensures Untouched(old(hdr), hdr, old(g.owner), g.live)
      ensures Big(hdr, g.free, SizeIn(old(hdr), ap - 1))
    {
      hide Good, Big, KeepsLive, FreedHeaders, Between;
      var bp := ap - 1;
      var p;
      ghost var j;
      p, j := FindPlace(bp);
      ghost var g' := Freed(base, hdr, g, bp, j);
      FreedUntouched(base, hdr, g, bp, j);
      Relink(p, bp);
      freep := p;
      g := g';
      assert |g.owner.Keys| == |g.owner|;
    }

    /** Write the header of memory just obtained: it becomes one block in use. */
    method Accept(hp: nat, n: nat)
      requires Ready() && n > 0 && hp > base && Fresh(g.owner, hp, n)
      modifies `hdr, `g, `obtained
      ensures Ready() && hp !in old(g.live) && g.live == old(g.live) + {hp} && obtained == old(obtained) + n
      ensures SizeIn(hdr, hp) == n && KeepsLive(old(g), g, old(g.live))
      ensures Untouched(old(hdr), hdr, old(g.owner), old(g.live))
    {
      hide Good, KeepsLive, Untouched, Added, Fresh;
      ghost var g1 := Granted(base, hdr, g, hp, n);
      NotLive(base, hdr, g, hp);
      GrantUntouched(hdr, g.owner, g.live, hp, n);
      AddSize(g.owner, hp, n);
      hdr := SetSize(hdr, hp, n);
      g := g1;
      obtained := obtained + n;
    }

    /** morecore: ask sbrk for memory, whose answer is `sbrk`, and free it into the list. */
    method Morecore(nu: nat, sbrk: Option<nat>) returns (r: nat)
      requires Ready() && base > 0 && nu > 0
      requires sbrk.Some? ==> sbrk.value > base && Fresh(g.owner, sbrk.value, CoreUnits(nu))
      modifies this
      ensures Ready()
      ensures sbrk.None? ==> r == 0 && hdr == old(hdr) && freep == old(freep)
      ensures sbrk.None? ==> g == old(g) && obtained == old(obtained)
      ensures sbrk.Some? ==> r == freep && Big(hdr, g.free, nu) && obtained == old(obtained) + CoreUnits(nu)
      ensures g.live == old(g.live) && KeepsLive(old(g), g, g.live)
      ensures Untouched(old(hdr), hdr, old(g.owner), g.live)
    {
      hide *;
      NothingDone(this);
      var n := CoreUnits(nu);
      if sbrk.None? {
        return 0;
      }
      ghost var g0, h0 := g, hdr;
      Accept(sbrk.value, n);
      ghost var g1, h1 := g, hdr;
      assert g1.live - {sbrk.value} == g0.live;
      Free(sbrk.value + 1);
      KeepsLiveTwice(g0, g1, g, g0.live);
      UntouchedTwice(h0, h1, hdr, g0, g1, g0.live);
      BigEnough(hdr, g.free, n, nu);
      return freep;
    }

    /** The first use of malloc: a ring of `base` alone. */
    method Start()
      requires Valid() && freep == 0
      modifies `hdr, `freep, `g
      ensures Ready() && g == Book([base], {}, map[], map[]) && obtained == old(obtained)
      ensures base in hdr && hdr[base].size == 0
    {
      hdr := hdr[base := Header(base, 0)];
      freep := base;
      g := Book([base], {}, map[], map[]);
      assert PointsOn(g.free, hdr, 0);
      assert g.free[0] == freep;
    }

    method Exact(prevp: nat, p: nat)
      requires prevp in hdr && p in hdr
      modifies `hdr
      ensures hdr == Unlink(old(hdr), prevp, p)
    {
      hdr := hdr[prevp := hdr[prevp].(ptr := hdr[p].ptr)];
    }

    method Carve(p: nat, n: nat) returns (q: nat)
      requires p in hdr && hdr[p].size > n
      modifies `hdr
      ensures hdr == CutHeaders(old(hdr), p, n) && q == p + old(hdr[p].size) - n
    {
      hdr := SetSize(hdr, p, hdr[p].size - n);
      q := p + hdr[p].size;
      hdr := SetSize(hdr, q, n);
    }

    /** Give out the block after ring entry `j`, or the tail of it. */
    method Take(prevp: nat, p: nat, n: nat, ghost j: nat) returns (r: nat)
      requires Ready() && j + 1 < |g.free| && prevp == g.free[j] && p == g.free[j + 1] && prevp > 0
      requires n > 0 && p in hdr && hdr[p].size >= n
      modifies `hdr, `freep, `g
      ensures Ready() && r > 0 && r - 1 !in old(g.live) && g.live == old(g.live) + {r - 1}
      ensures r - 1 in g.blk && g.blk[r - 1] == n && g.owner.Keys == old(g.owner.Keys)
      ensures KeepsLive(old(g), g, old(g.live)) && Untouched(old(hdr), hdr, old(g.owner), old(g.live))
    {
      hide Good, Loose, KeepsLive, Untouched, Unlink, CutHeaders, Dropped;
      TakeFacts(base, hdr, g, j);
      var q;
      if hdr[p].size == n {
        ghost var g' := Taken(base, hdr, g, j);
        TakenUntouched(base, hdr, g, j);
        Exact(prevp, p);
        g := g';
        q := p;
      } else {
        ghost var g' := Split(base, hdr, g, j + 1, n);
        SplitUntouched(base, hdr, g, j + 1, n);
        q := Carve(p, n);
        g := g';
        assert g.free[j] == prevp;
      }
      freep := prevp;
      assert g.owner.Keys == old(g.owner).Keys;
      assert |g.owner| == |g.owner.Keys|;
      return q + 1;
    }

    /** malloc's loop, from a ring that exists. */
    method Search(nunits: nat, sbrk: Option<nat>) returns (r: nat)
      requires Ready() && base > 0 && nunits > 0
      requires sbrk.Some? ==> sbrk.value > base && Fresh(g.owner, sbrk.value, CoreUnits(nunits))
      modifies this
      ensures Ready()
      ensures r == 0 <==> !Big(old(hdr), old(g.free), nunits) && sbrk.None?
      ensures r == 0 ==> g.live == old(g.live)
      ensures r > 0 ==> r - 1 !in old(g.live) && g.live == old(g.live) + {r - 1}
      ensures r > 0 ==> r - 1 in g.blk && g.blk[r - 1] == nunits
      ensures KeepsLive(old(g), g, old(g.live)) && Untouched(old(hdr), hdr, old(g.owner), old(g.live))
      ensures obtained == old(obtained) + MustGrow(old(hdr), old(g.free), nunits, sbrk)
    {
      hide Good, Big, KeepsLive, Untouched, Fresh, CoreUnits, Searching, SizeIn;
      NothingDone(this);
      ghost var h0, g0, o0, grown := hdr, g, obtained, false;
      ghost var s: nat := 1;
      ghost var k: nat := SearchStart(base, hdr, g, freep, nunits);
      var prevp := freep;
      var p := hdr[prevp].ptr;
      while true
        invariant Ready() && Searching(hdr, g.free, k, s, prevp, p, nunits) && k < |g.free| && freep == g.free[k]
        invariant s <= |g.free|
        invariant g.live == g0.live && KeepsLive(g0, g, g0.live) && Untouched(h0, hdr, g0.owner, g0.live)
        invariant !grown ==> hdr == h0 && g == g0 && obtained == o0
        invariant grown ==> sbrk.Some? && Big(hdr, g.free, nunits) && !Big(h0, g0.free, nunits)
        invariant grown ==> obtained == o0 + CoreUnits(nunits)
        decreases !grown, |g.free| - s
      {
        SearchHere(base, hdr, g, k, s, prevp, p, nunits);
        if hdr[p].size >= nunits {
          ghost var g1, h1 := g, hdr;
          r := Take(prevp, p, nunits, Around(k, s - 1, |g.free|));
          KeepsLiveTwice(g0, g1, g, g0.live);
          UntouchedTwice(h0, h1, hdr, g0, g1, g0.live);
          return;
        }
        SearchNext(base, hdr, g, k, s, prevp, p, nunits);
        if p == freep {
          p := Morecore(nunits, sbrk);
          if p == 0 {
            return 0;
          }
          grown, s := true, 0;
          k := SearchStart(base, hdr, g, freep, nunits);
        }
        prevp, p := p, hdr[p].ptr;
        s := s + 1;
      }
    }

    /** A block of Units(nbytes) units that no one else holds, or null when there is none and
        sbrk, whose answer is `sbrk`, gives no more. */
    method Malloc(nbytes: nat, sbrk: Option<nat>) returns (r: nat)
      requires Valid() && nbytes < TWO32
      requires var nu := CoreUnits(Units(nbytes));
               sbrk.Some? ==> SbrkArg(nu) == 8 * nu && sbrk.value > base && Fresh(g.owner, sbrk.value, nu)
      modifies this
      ensures Ready()
      ensures r == 0 <==> !Big(old(hdr), old(g.free), Units(nbytes)) && sbrk.None?
      ensures r == 0 ==> g.live == old(g.live)
      ensures r > 0 ==> r - 1 !in old(g.live) && g.live == old(g.live) + {r - 1}
      ensures r > 0 ==> r - 1 in g.blk && g.blk[r - 1] == Units(nbytes)
      ensures KeepsLive(old(g), g, old(g.live)) && Untouched(old(hdr), hdr, old(g.owner), old(g.live))
      ensures obtained == old(obtained) + MustGrow(old(hdr), old(g.free), Units(nbytes), sbrk)
    {
      hide Units, SbrkArg, CoreUnits, Good;
      if freep == 0 {
        Start();
      }
      r := Search(Units(nbytes), sbrk);
    }

    /** A program writes where it likes inside a block it holds; the allocator is unharmed. */
    method UserStore(a: nat, u: nat, x: Header)
      requires Ready() && a in g.live && a in g.blk && a < u < a + g.blk[a]
      modifies `hdr
      ensures Ready() && hdr == old(hdr)[u := x]
    {
      hide Good;
      Stored(base, hdr, g, a, u, x);
      hdr := hdr[u := x];
    }
  }

  lemma OwnedApart(owner: map<nat, nat>, blk: map<nat, nat>, s: set<nat>)
    requires Tiles(owner, blk)
    ensures |OwnedBy(owner, s)| + |OwnedBy(owner, blk.Keys - s)| == |owner|
  {
    hide Covers;
    forall u | u in owner ensures u in OwnedBy(owner, s) || u in OwnedBy(owner, blk.Keys - s) {
      assert Within(owner[u], u, blk);
    }
    assert OwnedBy(owner, s) + OwnedBy(owner, blk.Keys - s) == owner.Keys;
    assert OwnedBy(owner, s) !! OwnedBy(owner, blk.Keys - s);
  }

  lemma FreeAreListed(h: Heap)
    requires h.Ready()
    ensures forall a :: a in h.g.blk.Keys - h.g.live <==> a in h.g.free && a != h.base
  {
    hide Tiles, PointsOn, Ordered, Gap;
    forall a | a in h.g.free && a != h.base ensures a in h.g.blk && a !in h.g.live {
      var i :| 0 <= i < |h.g.free| && h.g.free[i] == a;
    }
  }

  /** Units live plus units free are the units obtained from sbrk. */
  lemma UnitsConserved(h: Heap)
    requires h.Ready()
    ensures h.g.live <= h.g.blk.Keys
    ensures Total(h.g.live, h.g.blk) + Total(h.g.blk.Keys - h.g.live, h.g.blk) == h.obtained
    ensures forall a :: a in h.g.blk.Keys - h.g.live <==> a in h.g.free && a != h.base
  {
    hide Ring, Gap;
    TotalIsOwned(h.g.live, h.g.owner, h.g.blk);
    TotalIsOwned(h.g.blk.Keys - h.g.live, h.g.owner, h.g.blk);
    OwnedApart(h.g.owner, h.g.blk, h.g.live);
    hide Tiles, Total, OwnedBy;
    FreeAreListed(h);
  }

  /** No two blocks handed out share a unit. */
  lemma LiveDisjoint(h: Heap, a: nat, b: nat, u: nat)
    requires h.Ready() && a in h.g.live && b in h.g.live
    ensures a in h.g.blk && b in h.g.blk
    ensures a <= u < a + h.g.blk[a] && b <= u < b + h.g.blk[b] ==> a == b
  {
    hide Ring, Listed, Gap;
    assert Owns(h.g.owner, a, h.g.blk[a]) && Owns(h.g.owner, b, h.g.blk[b]);
    if a <= u < a + h.g.blk[a] && b <= u < b + h.g.blk[b] {
      assert h.g.owner[u] == a;
    }
  }
}
