/** bio.c: the buffer cache, a circular doubly linked list of NBUF buffers in order of last
    release, caching blocks of a disk. Pointers are buffer numbers; HEAD is the list head. */
module BufferCache {
  import opened Blocks
  import opened RedoLog

  const HEAD := NBUF

  const ROOTDEV := 1

  // ---- the linked list ----

  /** Node number `i` of the ring: the head at both ends, the buffers in between. */
  function At(order: seq<nat>, i: nat): (b: nat)
    requires i <= |order| + 1
  {
    if i == 0 || i == |order| + 1 then HEAD else order[i - 1]
  }

  predicate Nodes(order: seq<nat>) {
    && (forall i :: 0 <= i < |order| ==> order[i] < NBUF)
    && Distinct(order)
  }

  /** `next` and `prev` link exactly the buffers of `order`, in that order, both ways round. */
  predicate Linked(order: seq<nat>, next: seq<nat>, prev: seq<nat>) {
    && |next| == |prev| == NBUF + 1
    && Nodes(order)
    && (forall i :: 0 <= i <= |order| ==> next[At(order, i)] == At(order, i + 1))
    && (forall i :: 1 <= i <= |order| + 1 ==> prev[At(order, i)] == At(order, i - 1))
  }

  function Removed(order: seq<nat>, j: nat): (r: seq<nat>)
    requires j < |order|
  {
    order[..j] + order[j + 1..]
  }

  /** The list with every occurrence of `b` gone. */
  function Without(order: seq<nat>, b: nat): (r: seq<nat>) {
    if order == [] then [] else (if order[0] == b then [] else [order[0]]) + Without(order[1..], b)
  }

  lemma {:induction false} WithoutNone(order: seq<nat>, b: nat)
    requires b !in order
    ensures Without(order, b) == order
  {
    if order != [] { WithoutNone(order[1..], b); }
  }

  lemma {:induction false} WithoutOne(order: seq<nat>, j: nat)
    requires Distinct(order) && j < |order|
    ensures Without(order, order[j]) == Removed(order, j)
  {
    if j == 0 {
      WithoutNone(order[1..], order[0]);
    } else {
      WithoutOne(order[1..], j - 1);
      assert Removed(order, j) == [order[0]] + Removed(order[1..], j - 1);
    }
  }

  lemma RemovedNodes(order: seq<nat>, j: nat)
    requires Nodes(order) && j < |order|
    ensures Nodes(Removed(order, j)) && order[j] !in Removed(order, j)
  {
    var r := Removed(order, j);
    forall i | 0 <= i < |r| ensures r[i] == order[if i < j then i else i + 1] { }
  }

  lemma RemovedAt(order: seq<nat>, j: nat, i: nat)
    requires j < |order| && i <= |order|
    ensures At(Removed(order, j), i) == At(order, if i <= j then i else i + 1)
  {
  }

  lemma AtDistinct(order: seq<nat>, i: nat, j: nat)
    requires Nodes(order) && i <= |order| + 1 && j <= |order| + 1
    ensures At(order, i) == At(order, j) ==>
              i == j || (i == 0 && j == |order| + 1) || (j == 0 && i == |order| + 1)
  {
  }

  /** `b->next->prev = b->prev; b->prev->next = b->next` takes `b` out. */
  lemma Unlink(order: seq<nat>, next: seq<nat>, prev: seq<nat>, j: nat)
    requires Linked(order, next, prev) && j < |order|
    ensures next[order[j]] <= NBUF && prev[order[j]] <= NBUF
    ensures Linked(Removed(order, j), next[prev[order[j]] := next[order[j]]], prev[next[order[j]] := prev[order[j]]])
  {
    var b, r := order[j], Removed(order, j);
    RemovedNodes(order, j);
    assert At(order, j + 1) == b;
    assert next[b] == At(order, j + 2) && prev[b] == At(order, j);
    var next', prev' := next[prev[b] := next[b]], prev[next[b] := prev[b]];
    forall i | 0 <= i <= |r| ensures next'[At(r, i)] == At(r, i + 1) {
      var k := if i <= j then i else i + 1;
      RemovedAt(order, j, i);
      RemovedAt(order, j, i + 1);
      AtDistinct(order, k, j);
      assert next[At(order, k)] == At(order, k + 1);
    }
    forall i | 1 <= i <= |r| + 1 ensures prev'[At(r, i)] == At(r, i - 1) {
      var k := if i <= j then i else i + 1;
      RemovedAt(order, j, i);
      RemovedAt(order, j, i - 1);
      AtDistinct(order, k, j + 2);
      assert prev[At(order, k)] == At(order, k - 1);
    }
  }

  /** `b->next = head.next; b->prev = &head; head.next->prev = b; head.next = b` puts `b` first. */
  lemma PushFront(order: seq<nat>, next: seq<nat>, prev: seq<nat>, b: nat)
    requires Linked(order, next, prev) && b < NBUF && b !in order
    ensures next[HEAD] <= NBUF
    ensures Linked([b] + order, next[b := next[HEAD]][HEAD := b], prev[b := HEAD][next[HEAD] := b])
  {
    var r := [b] + order;
    assert At(order, 0) == HEAD && next[HEAD] == At(order, 1);
    var next', prev' := next[b := next[HEAD]][HEAD := b], prev[b := HEAD][next[HEAD] := b];
    assert Nodes(r);
    forall i | 0 <= i <= |r| ensures next'[At(r, i)] == At(r, i + 1) {
      if i >= 2 {
        assert At(r, i) == At(order, i - 1) && next[At(order, i - 1)] == At(order, i);
      }
    }
    forall i | 1 <= i <= |r| + 1 ensures prev'[At(r, i)] == At(r, i - 1) {
      if i >= 2 {
        assert At(r, i) == At(order, i - 1);
        if i > 2 {
          assert prev[At(order, i - 1)] == At(order, i - 2);
          assert At(order, i - 1) != At(order, 1) by { AtDistinct(order, i - 1, 1); }
        }
      }
    }
  }

  /** The stores of brelse: the list with node `j` moved to the front. */
  lemma MovedLinked(order: seq<nat>, next: seq<nat>, prev: seq<nat>, j: nat)
    requires Linked(order, next, prev) && j < |order|
    ensures var b := order[j];
            && b <= NBUF && |next| == |prev| == NBUF + 1 && next[b] <= NBUF && prev[b] <= NBUF
            && var next', prev' := next[prev[b] := next[b]], prev[next[b] := prev[b]];
            && next'[HEAD] <= NBUF
            && Linked([b] + Removed(order, j), next'[b := next'[HEAD]][HEAD := b], prev'[b := HEAD][next'[HEAD] := b])
  {
    Unlink(order, next, prev, j);
    RemovedNodes(order, j);
    var b := order[j];
    PushFront(Removed(order, j), next[prev[b] := next[b]], prev[next[b] := prev[b]], b);
  }

  // ---- buffers ----

  datatype Buf = Buf(dev: nat, blockno: nat, refcnt: nat, valid: bool, dirty: bool, locked: bool, data: Block) {
    /** Free to be recycled: nobody uses it and the log has not pinned it. */
    predicate Eligible() { refcnt == 0 && !dirty }
  }

  datatype Option<T> = None | Some(value: T)

  type Key = (nat, nat)

  predicate BufOk(b: Buf, disk: Disk) {
    && (b.dirty ==> b.valid)
    && (b.valid ==> b.dev == ROOTDEV && b.blockno < |disk|)
    && (b.valid && !b.dirty ==> disk[b.blockno] == b.data)
    && (b.locked ==> b.refcnt > 0)
    && (b.dev != 0 && !b.valid ==> b.refcnt > 0)
  }

  /** `at` finds the one buffer that caches a block of a nonzero device. */
  ghost predicate KeysOk(buf: seq<Buf>, at: map<Key, nat>) {
    && (forall i :: 0 <= i < |buf| && buf[i].dev != 0 ==>
          (buf[i].dev, buf[i].blockno) in at && at[(buf[i].dev, buf[i].blockno)] == i)
    && (forall k :: k in at ==> k.0 != 0 && at[k] < |buf| && (buf[at[k]].dev, buf[at[k]].blockno) == k)
  }

  /** The contents of a block: its buffer's, when a buffer holds them, else the disk's. */
  ghost function Contents(buf: seq<Buf>, at: map<Key, nat>, disk: Disk, c: nat): (r: Block)
    requires KeysOk(buf, at) && c < |disk|
  {
    if (ROOTDEV, c) in at && buf[at[(ROOTDEV, c)]].valid then buf[at[(ROOTDEV, c)]].data else disk[c]
  }

  /** A block is cached at most once. */
  lemma CachedOnce(buf: seq<Buf>, at: map<Key, nat>, i: nat, j: nat)
    requires KeysOk(buf, at) && i < |buf| && j < |buf| && buf[i].dev != 0
    requires buf[i].dev == buf[j].dev && buf[i].blockno == buf[j].blockno
    ensures i == j
  {
    assert at[(buf[i].dev, buf[i].blockno)] == i;
    assert at[(buf[j].dev, buf[j].blockno)] == j;
  }

  /** The buffer table with buffer `b` recycled for another block. */
  function Recycled(buf: seq<Buf>, b: nat, dev: nat, blockno: nat): (r: seq<Buf>)
    requires b < |buf|
  {
    buf[b := buf[b].(dev := dev, blockno := blockno, valid := false, dirty := false, refcnt := 1)]
  }

  ghost predicate TableOk(buf: seq<Buf>, at: map<Key, nat>, disk: Disk) {
    KeysOk(buf, at) && forall i :: 0 <= i < |buf| ==> BufOk(buf[i], disk)
  }

  ghost predicate Pinned(buf: seq<Buf>, at: map<Key, nat>, c: nat)
    requires KeysOk(buf, at)
  {
    (ROOTDEV, c) in at && buf[at[(ROOTDEV, c)]].dirty
  }

  /** Eviction changes no block's contents: a buffer that may be recycled agrees with the disk. */
  lemma EvictionKeepsContents(buf: seq<Buf>, at: map<Key, nat>, disk: Disk, b: nat, dev: nat, blockno: nat)
    requires TableOk(buf, at, disk) && b < |buf| && buf[b].Eligible() && dev != 0 && (dev, blockno) !in at
    ensures var at' := (at - {(buf[b].dev, buf[b].blockno)})[(dev, blockno) := b];
            var buf' := Recycled(buf, b, dev, blockno);
            && TableOk(buf', at', disk)
            && forall c :: 0 <= c < |disk| ==>
                 Contents(buf', at', disk, c) == Contents(buf, at, disk, c) && Pinned(buf', at', c) == Pinned(buf, at, c)
  {
    var old_key := (buf[b].dev, buf[b].blockno);
    var at' := (at - {old_key})[(dev, blockno) := b];
    var buf' := Recycled(buf, b, dev, blockno);
    forall i | 0 <= i < |buf'| && buf'[i].dev != 0
      ensures (buf'[i].dev, buf'[i].blockno) in at' && at'[(buf'[i].dev, buf'[i].blockno)] == i
    {
      if i != b { assert at[(buf[i].dev, buf[i].blockno)] == i; }
    }
    assert KeysOk(buf', at');
  }

  /** Replacing one buffer by one for the same block changes at most that block. */
  lemma Replaced(buf: seq<Buf>, at: map<Key, nat>, disk: Disk, b: nat, x: Buf, disk': Disk)
    requires TableOk(buf, at, disk) && b < |buf| && (x.dev, x.blockno) == (buf[b].dev, buf[b].blockno)
    requires |disk'| == |disk| && BufOk(x, disk')
    requires forall c :: 0 <= c < |disk| && c != buf[b].blockno ==> disk'[c] == disk[c]
    requires disk' == disk || buf[b].dev == ROOTDEV
    ensures TableOk(buf[b := x], at, disk')
    ensures forall c :: 0 <= c < |disk| && (ROOTDEV, c) != (x.dev, x.blockno) ==>
              Contents(buf[b := x], at, disk', c) == Contents(buf, at, disk, c)
              && Pinned(buf[b := x], at, c) == Pinned(buf, at, c)
    ensures x.dev == ROOTDEV && x.blockno < |disk| ==>
              Contents(buf[b := x], at, disk', x.blockno) == (if x.valid then x.data else disk'[x.blockno])
              && Pinned(buf[b := x], at, x.blockno) == x.dirty
  {
    var buf' := buf[b := x];
    forall i | 0 <= i < |buf| ensures BufOk(buf'[i], disk') {
      if i != b && buf[i].valid && disk' != disk && buf[i].blockno == buf[b].blockno {
        CachedOnce(buf, at, i, b);
      }
    }
    assert KeysOk(buf', at);
  }

  lemma LinkedNodes(order: seq<nat>, next: seq<nat>, prev: seq<nat>)
    requires Linked(order, next, prev)
    ensures Nodes(order) && |next| == |prev| == NBUF + 1
  {
  }

  // ---- when bget finds no buffer ----

  ghost function PinnedBlocks(buf: seq<Buf>, at: map<Key, nat>, disk: Disk): (p: set<nat>)
    requires KeysOk(buf, at)
  {
    set c | 0 <= c < |disk| && Pinned(buf, at, c)
  }

  /** Nobody uses a buffer that the log has not pinned. */
  predicate OnlyPinsUsed(buf: seq<Buf>) {
    forall i :: 0 <= i < |buf| ==> buf[i].refcnt > 0 ==> buf[i].dirty
  }

  /** A set of `n` numbers below `n` has them all. */
  lemma {:induction false} AllBelow(p: set<nat>, n: nat)
    requires forall i :: i in p ==> i < n
    ensures |p| <= n && (|p| == n <==> forall i :: 0 <= i < n ==> i in p)
  {
    if n == 0 {
      assert p == {};
    } else {
      AllBelow(p - {n - 1}, n - 1);
      if n - 1 in p { assert |p - {n - 1}| == |p| - 1; } else { assert p - {n - 1} == p; }
    }
  }

  lemma {:induction false} ImageCard(p: set<nat>, f: map<nat, nat>)
    requires p <= f.Keys && forall x, y :: x in p && y in p && f[x] == f[y] ==> x == y
    ensures |set x | x in p :: f[x]| == |p|
  {
    var image := set x | x in p :: f[x];
    if p == {} {
      assert image == {};
    } else {
      var x :| x in p;
      ImageCard(p - {x}, f);
      assert image == (set y | y in p - {x} :: f[y]) + {f[x]};
      assert f[x] !in set y | y in p - {x} :: f[y];
    }
  }

  /** There are as many pinned blocks as dirty buffers. */
  lemma PinsAreBuffers(buf: seq<Buf>, at: map<Key, nat>, disk: Disk)
    requires TableOk(buf, at, disk)
    ensures |PinnedBlocks(buf, at, disk)| <= |buf|
    ensures |PinnedBlocks(buf, at, disk)| == |buf| <==> forall i :: 0 <= i < |buf| ==> buf[i].dirty
  {
    var p := PinnedBlocks(buf, at, disk);
    var f := map c | c in p :: at[(ROOTDEV, c)];
    var image := set c | c in p :: f[c];
    ImageCard(p, f);
    AllBelow(image, |buf|);
    forall i | 0 <= i < |buf| ensures i in image <==> buf[i].dirty {
      assert BufOk(buf[i], disk);
      if buf[i].dirty {
        assert at[(ROOTDEV, buf[i].blockno)] == i;
        assert buf[i].blockno in p && f[buf[i].blockno] == i;
      }
    }
  }

  /** While only pinned buffers are in use, bget fails exactly when the log has pinned all NBUF
      buffers and none of them is the block's. */
  lemma NoBufferIffAllPinned(buf: seq<Buf>, at: map<Key, nat>, disk: Disk, b: nat)
    requires |buf| == NBUF && TableOk(buf, at, disk) && OnlyPinsUsed(buf) && b < |disk|
    ensures (ROOTDEV, b) !in at && (forall i :: 0 <= i < NBUF ==> !buf[i].Eligible())
       <==> b !in PinnedBlocks(buf, at, disk) && |PinnedBlocks(buf, at, disk)| == NBUF
  {
    PinsAreBuffers(buf, at, disk);
  }

  /** The list holds every buffer, sorted by time of release, all before `clock`. */
  predicate Stamped(order: seq<nat>, released: seq<nat>, clock: nat) {
    && |order| == NBUF == |released| && Nodes(order)
    && (forall b :: 0 <= b < NBUF ==> released[b] < clock && b in order)
    && (forall i, k :: 0 <= i < k < NBUF ==> released[order[i]] > released[order[k]])
  }

  lemma StampedHas(order: seq<nat>, released: seq<nat>, clock: nat, b: nat)
    requires Stamped(order, released, clock) && b < NBUF
    ensures |order| == NBUF == |released| && b in order && Nodes(order)
  {
  }

  lemma MovedHas(order: seq<nat>, j: nat, b: nat)
    requires j < |order| && b in order
    ensures b in [order[j]] + Removed(order, j)
  {
    var o := [order[j]] + Removed(order, j);
    var i: nat :| i < |order| && order[i] == b;
    assert o[if i == j then 0 else if i < j then i + 1 else i] == b;
  }

  /** Moving the released buffer to the front keeps the list sorted by time of release. */
  lemma MovedStamps(order: seq<nat>, j: nat, released: seq<nat>, clock: nat)
    requires Stamped(order, released, clock) && j < NBUF
    ensures Stamped([order[j]] + Removed(order, j), released[order[j] := clock], clock + 1)
  {
    var r, o := released[order[j] := clock], [order[j]] + Removed(order, j);
    RemovedNodes(order, j);
    forall i | 1 <= i < NBUF ensures o[i] == order[if i <= j then i - 1 else i] { }
    forall b | 0 <= b < NBUF ensures r[b] < clock + 1 && b in o {
      MovedHas(order, j, b);
    }
    forall i, k | 0 <= i < k < NBUF ensures r[o[i]] > r[o[k]] {
      var y := if k <= j then k - 1 else k;
      assert order[y] != order[j];
    }
  }

  datatype ReadOutcome = Held(b: nat) | Waits(b: nat) | NoBuffers

  class Cache {
    var buf: seq<Buf>
    var next: seq<nat>
    var prev: seq<nat>
    var disk: Disk
    ghost var order: seq<nat>       // most recently released first
    ghost var at: map<Key, nat>
    ghost var released: seq<nat>    // when each buffer was last released by its last user
    ghost var clock: nat

    ghost predicate ListOk()
      reads `next, `prev, `order, `released, `clock
    {
      Linked(order, next, prev) && Stamped(order, released, clock)
    }

    ghost predicate Valid()
      reads this
    {
      |buf| == NBUF && ListOk() && TableOk(buf, at, disk)
    }

    ghost function Logical(c: nat): (r: Block)
      requires Valid() && c < |disk|
      reads this
    {
      Contents(buf, at, disk, c)
    }

    /** Whether the log has pinned the block: its buffer is newer than the disk. */
    ghost predicate IsPinned(c: nat)
      requires Valid()
      reads this
    {
      Pinned(buf, at, c)
    }

    /** binit: every buffer is pushed on the front of an empty ring. */
    constructor (d: Disk)
      ensures Valid() && disk == d && at == map[]
      ensures forall i :: 0 <= i < NBUF ==> buf[i].refcnt == 0 && !buf[i].locked
    {
      disk := d;
      at := map[];
      buf := seq(NBUF, i => Buf(0, 0, 0, false, false, false, ZeroBlock()));
      next := seq(NBUF + 1, i => HEAD);
      prev := seq(NBUF + 1, i => HEAD);
      order := [];
      released := seq(NBUF, i => i);
      clock := NBUF;
      new;
      var b := 0;
      while b < NBUF
        invariant 0 <= b <= NBUF && |order| == b
        invariant Linked(order, next, prev)
        invariant forall i :: 0 <= i < b ==> order[i] == b - 1 - i
        invariant released == seq(NBUF, i => i) && clock == NBUF && disk == d && at == map[]
        invariant buf == seq(NBUF, i => Buf(0, 0, 0, false, false, false, ZeroBlock()))
      {
        PushFront(order, next, prev, b);
        var first := next[HEAD];
        next := next[b := first];
        prev := prev[b := HEAD];
        prev := prev[first := b];
        next := next[HEAD := b];
        order := [b] + order;
        b := b + 1;
      }
      forall c | 0 <= c < NBUF ensures c in order {
        assert order[NBUF - 1 - c] == c;
      }
    }

    /** bget's first loop: walk the list from the front for the block. */
    method FindCached(dev: nat, blockno: nat) returns (r: Option<nat>)
      requires Valid() && dev != 0
      ensures r.Some? <==> (dev, blockno) in at
      ensures r.Some? ==> r.value == at[(dev, blockno)]
    {
      hide BufOk;
      assert At(order, 0) == HEAD;
      var b := next[HEAD];
      ghost var i := 1;
      while b != HEAD
        invariant 1 <= i <= NBUF + 1 && b == At(order, i)
        invariant forall j :: 0 <= j < i - 1 ==> !(buf[order[j]].dev == dev && buf[order[j]].blockno == blockno)
        decreases NBUF + 1 - i
      {
        if buf[b].dev == dev && buf[b].blockno == blockno {
          return Some(b);
        }
        assert next[At(order, i)] == At(order, i + 1);
        b := next[b];
        i := i + 1;
      }
      forall c | 0 <= c < NBUF ensures !(buf[c].dev == dev && buf[c].blockno == blockno) {
        assert c in order;
      }
      return None;
    }

    /** bget's second loop: walk the list from the back for a buffer that may be recycled. */
    method FindVictim() returns (r: Option<nat>)
      requires Valid()
      ensures r.None? <==> forall c :: 0 <= c < NBUF ==> !buf[c].Eligible()
      ensures r.Some? ==> r.value < NBUF && buf[r.value].Eligible()
      ensures r.Some? ==> forall c :: 0 <= c < NBUF && buf[c].Eligible() ==> released[c] >= released[r.value]
    {
      hide BufOk;
      assert At(order, NBUF + 1) == HEAD;
      var b := prev[HEAD];
      ghost var i := NBUF;
      while b != HEAD
        invariant 0 <= i <= NBUF && b == At(order, i)
        invariant forall j :: i <= j < NBUF ==> !buf[order[j]].Eligible()
        decreases i
      {
        if buf[b].refcnt == 0 && !buf[b].dirty {
          forall c | 0 <= c < NBUF && buf[c].Eligible() ensures released[c] >= released[b] {
            assert c in order;
            var j :| 0 <= j < |order| && order[j] == c;
          }
          return Some(b);
        }
        assert prev[At(order, i)] == At(order, i - 1);
        b := prev[b];
        i := i - 1;
      }
      forall c | 0 <= c < NBUF ensures !buf[c].Eligible() {
        assert c in order;
      }
      return None;
    }

    /** Find the buffer of a block, or recycle the least recently released eligible one. */
    method Bget(dev: nat, blockno: nat) returns (r: Option<nat>)
      requires Valid() && dev != 0
      modifies `buf, `at
      ensures Valid()
      ensures r.None? <==> (dev, blockno) !in old(at) && forall c :: 0 <= c < NBUF ==> !old(buf)[c].Eligible()
      ensures r.None? ==> buf == old(buf) && at == old(at)
      ensures r.Some? ==> r.value < NBUF && (dev, blockno) in at && at[(dev, blockno)] == r.value
      ensures r.Some? && (dev, blockno) in old(at) ==>
        at == old(at) && buf == old(buf)[r.value := old(buf)[r.value].(refcnt := old(buf)[r.value].refcnt + 1)]
      ensures r.Some? && (dev, blockno) !in old(at) ==>
        && old(buf)[r.value].Eligible()
        && buf == Recycled(old(buf), r.value, dev, blockno)
        && forall c :: 0 <= c < NBUF && old(buf)[c].Eligible() ==> released[c] >= released[r.value]
      ensures forall c :: 0 <= c < |disk| ==> Logical(c) == old(Logical(c)) && IsPinned(c) == old(IsPinned(c))
    {
      hide ListOk;
      var hit := FindCached(dev, blockno);
      if hit.Some? {
        var b := hit.value;
        buf := buf[b := buf[b].(refcnt := buf[b].refcnt + 1)];
        return hit;
      }
      r := FindVictim();
      if r.Some? {
        var b := r.value;
        EvictionKeepsContents(buf, at, disk, b, dev, blockno);
        at := (at - {(buf[b].dev, buf[b].blockno)})[(dev, blockno) := b];
        buf := Recycled(buf, b, dev, blockno);
      }
    }

    /** acquiresleep of a buffer nobody holds, then iderw if it is not valid. */
    method LockAndFill(b: nat)
      requires Valid() && b < NBUF && buf[b].refcnt > 0 && !buf[b].locked && buf[b].dev == ROOTDEV && buf[b].blockno < |disk|
      modifies `buf
      ensures Valid() && buf[b].locked && buf[b].valid && (buf[b].dev, buf[b].blockno) == old((buf[b].dev, buf[b].blockno))
      ensures buf[b].data == old(Logical(buf[b].blockno))
      ensures forall c :: 0 <= c < |disk| ==> Logical(c) == old(Logical(c)) && IsPinned(c) == old(IsPinned(c))
    {
      hide ListOk;
      assert at[(buf[b].dev, buf[b].blockno)] == b;
      var x := buf[b].(locked := true);
      if !x.valid {
        x := x.(data := disk[x.blockno], valid := true);
      }
      Replaced(buf, at, disk, b, x, disk);
      buf := buf[b := x];
    }

    /** bread: panic if every buffer is in use; sleep, already counted as a user, if another holds
        the buffer, and go on with LockAndFill when it is released; else a locked, valid buffer. */
    method Bread(blockno: nat) returns (r: ReadOutcome)
      requires Valid() && blockno < |disk|
      modifies `buf, `at
      ensures Valid()
      ensures r.NoBuffers? <==> (ROOTDEV, blockno) !in old(at) && forall c :: 0 <= c < NBUF ==> !old(buf)[c].Eligible()
      ensures r.NoBuffers? ==> buf == old(buf) && at == old(at)
      ensures r.Waits? <==> (ROOTDEV, blockno) in old(at) && old(buf)[old(at)[(ROOTDEV, blockno)]].locked
      ensures r.Waits? ==> r.b == old(at)[(ROOTDEV, blockno)] && at == old(at)
                           && buf == old(buf)[r.b := old(buf)[r.b].(refcnt := old(buf)[r.b].refcnt + 1)]
      ensures r.Held? ==> r.b < NBUF && buf[r.b].locked && buf[r.b].valid
      ensures r.Held? ==> (buf[r.b].dev, buf[r.b].blockno) == (ROOTDEV, blockno)
      ensures r.Held? ==> buf[r.b].data == old(Logical(blockno))
      ensures forall c :: 0 <= c < |disk| ==> Logical(c) == old(Logical(c)) && IsPinned(c) == old(IsPinned(c))
    {
      hide ListOk;
      var b := Bget(ROOTDEV, blockno);
      if b.None? {
        return NoBuffers;
      }
      assert BufOk(old(buf)[b.value], disk);
      if buf[b.value].locked {
        return Waits(b.value);
      }
      LockAndFill(b.value);
      r := Held(b.value);
    }

    /** Change a held buffer and hand it to log_write, which pins it. */
    method ModifyAndLog(b: nat, data: Block)
      requires Valid() && b < NBUF && buf[b].locked && buf[b].valid
      modifies `buf
      ensures Valid() && buf == old(buf)[b := old(buf)[b].(data := data, dirty := true)]
      ensures forall c :: 0 <= c < |disk| ==> Logical(c) == if c == buf[b].blockno then data else old(Logical(c))
      ensures forall c :: 0 <= c < |disk| ==> IsPinned(c) == (c == buf[b].blockno || old(IsPinned(c)))
    {
      hide ListOk;
      var x := buf[b].(data := data, dirty := true);
      Replaced(buf, at, disk, b, x, disk);
      buf := buf[b := x];
    }

    /** Change a held buffer and write it through: on disk at once, and no longer pinned. */
    method ModifyAndBwrite(b: nat, data: Block)
      requires Valid() && b < NBUF && buf[b].locked && buf[b].valid
      modifies `buf, `disk
      ensures Valid() && disk == Put(old(disk), Write(buf[b].blockno, data))
      ensures buf == old(buf)[b := old(buf)[b].(data := data, dirty := false)]
      ensures forall c :: 0 <= c < |disk| ==> Logical(c) == if c == buf[b].blockno then data else old(Logical(c))
      ensures forall c :: 0 <= c < |disk| ==> IsPinned(c) == (c != buf[b].blockno && old(IsPinned(c)))
    {
      hide ListOk;
      var x := buf[b].(data := data, dirty := false);
      var d := disk[x.blockno := data];
      Replaced(buf, at, disk, b, x, d);
      disk := d;
      buf := buf[b := x];
    }

    method MoveToFront(b: nat)
      requires ListOk() && b < NBUF
      modifies `next, `prev, `order, `released, `clock
      ensures ListOk() && order == [b] + Without(old(order), b) && released == old(released)[b := old(clock)]
    {
      hide Linked, Stamped, Without;
      StampedHas(order, released, clock, b);
      ghost var j: nat :| 0 <= j < |order| && order[j] == b;
      LinkedNodes(order, next, prev);
      MovedLinked(order, next, prev, j);
      next, prev := next[prev[b] := next[b]], prev[next[b] := prev[b]];
      var first := next[HEAD];
      next := next[b := first];
      prev := prev[b := HEAD];
      prev := prev[first := b];
      next := next[HEAD := b];
      MovedStamps(order, j, released, clock);
      WithoutOne(order, j);
      order := [b] + Removed(order, j);
      released := released[b := clock];
      clock := clock + 1;
    }

    /** brelse up to releasesleep: the buffer has no holder, and is in use still. */
    method ReleaseLock(b: nat)
      requires Valid() && b < NBUF && buf[b].locked && buf[b].valid
      modifies `buf
      ensures Valid() && buf == old(buf)[b := old(buf)[b].(locked := false)] && buf[b].refcnt > 0
      ensures forall c :: 0 <= c < |disk| ==> Logical(c) == old(Logical(c)) && IsPinned(c) == old(IsPinned(c))
    {
      hide ListOk;
      var x := buf[b].(locked := false);
      Replaced(buf, at, disk, b, x, disk);
      assert at[(x.dev, x.blockno)] == b;
      buf := buf[b := x];
    }

    /** The rest of brelse, under bcache.lock: one user less, and another may hold the buffer by
        now. The last user moves it to the front of the list. */
    method DropUser(b: nat)
      requires Valid() && b < NBUF && buf[b].valid && buf[b].refcnt > if buf[b].locked then 1 else 0
      modifies `buf, `next, `prev, `order, `released, `clock
      ensures Valid()
      ensures buf == old(buf)[b := old(buf)[b].(refcnt := old(buf)[b].refcnt - 1)]
      ensures buf[b].refcnt > 0 ==> order == old(order) && released == old(released)
      ensures buf[b].refcnt == 0 ==> order == [b] + Without(old(order), b) && released == old(released)[b := old(clock)]
      ensures forall c :: 0 <= c < |disk| ==> Logical(c) == old(Logical(c)) && IsPinned(c) == old(IsPinned(c))
    {
      hide Linked;
      var x := buf[b].(refcnt := buf[b].refcnt - 1);
      assert BufOk(buf[b], disk);
      Replaced(buf, at, disk, b, x, disk);
      assert at[(x.dev, x.blockno)] == b;
      buf := buf[b := x];
      if x.refcnt == 0 {
        MoveToFront(b);
      }
    }

    /** brelse with nobody in between. */
    method Brelse(b: nat)
      requires Valid() && b < NBUF && buf[b].locked && buf[b].valid
      modifies `buf, `next, `prev, `order, `released, `clock
      ensures Valid()
      ensures buf == old(buf)[b := old(buf)[b].(locked := false, refcnt := old(buf)[b].refcnt - 1)]
      ensures buf[b].refcnt > 0 ==> order == old(order) && released == old(released)
      ensures buf[b].refcnt == 0 ==> order == [b] + Without(old(order), b) && released == old(released)[b := old(clock)]
      ensures forall c :: 0 <= c < |disk| ==> Logical(c) == old(Logical(c)) && IsPinned(c) == old(IsPinned(c))
    {
      hide ListOk;
      ReleaseLock(b);
      DropUser(b);
    }
  }
}
