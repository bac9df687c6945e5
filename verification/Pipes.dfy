/** pipe.c: a ring buffer whose counters wrap at 32 bits. A turn is what a reader or writer does
    between acquiring p->lock and its return or sleep. */
module Pipes {
  import opened Blocks

  const PIPESIZE := 512
  const TWO32 := 0x1_0000_0000

  datatype Outcome = Done | Sleeps | Failed

  lemma SlotOfWrapped(x: nat)
    ensures (x % TWO32) % PIPESIZE == x % PIPESIZE
  {
  }

  lemma WrappedEqual(x: nat, y: nat)
    requires x <= y < x + TWO32
    ensures x % TWO32 == y % TWO32 <==> x == y
  {
  }

  lemma SlotsDiffer(x: nat, y: nat)
    requires x < y < x + PIPESIZE
    ensures x % PIPESIZE != y % PIPESIZE
  {
  }

  /** The tests for a full and for an empty pipe, on the wrapped counters. */
  lemma CounterTests(r: nat, w: nat)
    requires r <= w <= r + PIPESIZE
    ensures w % TWO32 == (r % TWO32 + PIPESIZE) % TWO32 <==> w == r + PIPESIZE
    ensures r % TWO32 == w % TWO32 <==> r == w
  {
    assert (r % TWO32 + PIPESIZE) % TWO32 == (r + PIPESIZE) % TWO32;
    WrappedEqual(w, r + PIPESIZE);
    WrappedEqual(r, w);
  }

  /** The bytes of `written` from number `r` on are in their slots of the ring. */
  ghost predicate InRing(data: seq<Byte>, written: seq<Byte>, r: nat) {
    |data| == PIPESIZE && forall k :: r <= k < |written| ==> data[k % PIPESIZE] == written[k]
  }

  lemma PutInRing(data: seq<Byte>, written: seq<Byte>, r: nat, b: Byte)
    requires InRing(data, written, r) && r <= |written| < r + PIPESIZE
    ensures InRing(data[|written| % PIPESIZE := b], written + [b], r)
  {
    var d, w := data[|written| % PIPESIZE := b], written + [b];
    forall k | r <= k < |w| ensures d[k % PIPESIZE] == w[k] {
      if k < |written| {
        SlotsDiffer(k, |written|);
      }
    }
  }

  class Pipe {
    var data: array<Byte>
    var nread: nat
    var nwrite: nat
    var readopen: bool
    var writeopen: bool
    /** Every byte ever written and every byte ever read, in order. */
    ghost var written: seq<Byte>
    ghost var got: seq<Byte>

    ghost predicate Valid()
      reads this, data
    {
      && data.Length == PIPESIZE
      && |got| <= |written| <= |got| + PIPESIZE
      && nread == |got| % TWO32 && nwrite == |written| % TWO32
      && got == written[..|got|]
      && InRing(data[..], written, |got|)
    }

    constructor ()
      ensures Valid() && fresh(data) && written == [] && got == [] && readopen && writeopen
    {
      data := new Byte[PIPESIZE];
      nread, nwrite := 0, 0;
      readopen, writeopen := true, true;
      written, got := [], [];
    }

    method Full() returns (b: bool)
      requires Valid()
      ensures b <==> |written| == |got| + PIPESIZE
    {
      CounterTests(|got|, |written|);
      b := nwrite == (nread + PIPESIZE) % TWO32;
    }

    method Empty() returns (b: bool)
      requires Valid()
      ensures b <==> |written| == |got|
    {
      CounterTests(|got|, |written|);
      b := nread == nwrite;
    }

    method PutByte(b: Byte)
      requires Valid() && |written| < |got| + PIPESIZE
      modifies `nwrite, `written, data
      ensures Valid() && written == old(written) + [b]
    {
      SlotOfWrapped(|written|);
      PutInRing(data[..], written, |got|, b);
      data[nwrite % PIPESIZE] := b;
      nwrite := (nwrite + 1) % TWO32;
      written := written + [b];
      assert data[..] == old(data[..])[|old(written)| % PIPESIZE := b];
    }

    method GetByte() returns (b: Byte)
      requires Valid() && |got| < |written|
      modifies `nread, `got
      ensures Valid() && got == old(got) + [b]
    {
      SlotOfWrapped(|got|);
      b := data[nread % PIPESIZE];
      assert b == data[..][|got| % PIPESIZE] == written[|got|];
      got := got + [b];
      nread := (nread + 1) % TWO32;
    }

    /** pipewrite from byte `i` on: writes until the pipe is full or the bytes run out. */
    method WriteTurn(addr: seq<Byte>, i: nat, killed: bool) returns (i': nat, out: Outcome)
      requires Valid() && i <= |addr|
      modifies `nwrite, `written, data
      ensures Valid() && i <= i' <= |addr| && written == old(written) + addr[i..i']
      ensures i' - i == if |addr| - i <= PIPESIZE - (|old(written)| - |got|) then |addr| - i
                        else PIPESIZE - (|old(written)| - |got|)
      ensures out == Done <==> i' == |addr|
      ensures out == Failed <==> i' < |addr| && (!readopen || killed)
      ensures out != Done ==> |written| == |got| + PIPESIZE
    {
      hide InRing;
      i' := i;
      assert addr[i..i] == [];
      while i' < |addr|
        invariant Valid() && i <= i' <= |addr| && written == old(written) + addr[i..i']
      {
        var full := Full();
        if full {
          out := if !readopen || killed then Failed else Sleeps;
          return;
        }
        PutByte(addr[i']);
        assert addr[i..i' + 1] == addr[i..i'] + [addr[i']];
        i' := i' + 1;
      }
      out := Done;
    }

    /** piperead: takes up to `n` bytes, or sleeps while the pipe is empty and a writer remains. */
    method ReadTurn(n: int, killed: bool) returns (bytes: seq<Byte>, out: Outcome)
      requires Valid()
      modifies `nread, `got
      ensures Valid() && got == old(got) + bytes
      ensures out == Done <==> !(old(got) == written && writeopen)
      ensures out == Failed <==> old(got) == written && writeopen && killed
      ensures out != Done ==> bytes == []
      ensures out == Done ==> |bytes| == if n <= 0 then 0 else if n <= |written| - |old(got)| then n else |written| - |old(got)|
    {
      hide InRing;
      bytes := [];
      assert got == written <==> |got| == |written|;
      var empty := Empty();
      if empty && writeopen {
        out := if killed then Failed else Sleeps;
        return;
      }
      var i := 0;
      while i < n
        invariant Valid() && 0 <= i == |bytes| && (i <= n || i == 0) && got == old(got) + bytes
      {
        empty := Empty();
        if empty {
          break;
        }
        var b := GetByte();
        bytes := bytes + [b];
        i := i + 1;
      }
      out := Done;
    }

    /** pipeclose: `freed` when both ends are closed. */
    method Close(writable: bool) returns (freed: bool)
      requires Valid()
      modifies `readopen, `writeopen
      ensures Valid() && writeopen == (old(writeopen) && !writable) && readopen == (old(readopen) && writable)
      ensures freed <==> !readopen && !writeopen
    {
      if writable {
        writeopen := false;
      } else {
        readopen := false;
      }
      freed := !readopen && !writeopen;
    }
  }

  // ---- any interleaving of readers and writers ----

  /** One turn of writer `w`, of a reader wanting `n` bytes, or closing an end. */
  datatype Turn = Write(w: nat, killed: bool) | Read(n: int, killed: bool) | CloseEnd(writable: bool)

  /** The bytes of `ws` written by writer `w`, in order, where `who` says who wrote each. */
  ghost function Share(ws: seq<Byte>, who: seq<nat>, w: nat): (r: seq<Byte>)
    requires |who| == |ws|
  {
    if |ws| == 0 then []
    else Share(ws[..|ws| - 1], who[..|ws| - 1], w) + if who[|ws| - 1] == w then [ws[|ws| - 1]] else []
  }

  ghost function Marks(w: nat, n: nat): (r: seq<nat>)
    ensures |r| == n
  {
    seq(n, _ => w)
  }

  lemma {:induction false} ShareOfAppend(ws: seq<Byte>, who: seq<nat>, bs: seq<Byte>, v: nat, w: nat)
    requires |who| == |ws|
    ensures Share(ws + bs, who + Marks(v, |bs|), w) == Share(ws, who, w) + if v == w then bs else []
    decreases |bs|
  {
    if |bs| == 0 {
      assert ws + bs == ws && who + Marks(v, 0) == who;
    } else {
      var n := |bs| - 1;
      ShareOfAppend(ws, who, bs[..n], v, w);
      assert (ws + bs)[..|ws| + n] == ws + bs[..n];
      assert (who + Marks(v, n + 1))[..|ws| + n] == who + Marks(v, n);
      assert v == w ==> bs[..n] + [bs[n]] == bs;
    }
  }

  lemma ValidParts(p: Pipe)
    requires p.Valid()
    ensures |p.got| <= |p.written| <= |p.got| + PIPESIZE && p.got == p.written[..|p.got|]
  {
  }

  /** Whatever the order of turns, the bytes read are a prefix of the bytes written, and the bytes
      of each writer appear complete and in order: none lost, repeated or reordered. */
  method Interleave(p: Pipe, writers: seq<seq<Byte>>, turns: seq<Turn>) returns (pos: seq<nat>, ghost who: seq<nat>)
    requires p.Valid() && p.written == [] && p.got == []
    modifies p, p.data
    ensures p.Valid() && p.got == p.written[..|p.got|] && 0 <= |p.written| - |p.got| <= PIPESIZE
    ensures |who| == |p.written| && |pos| == |writers|
    ensures forall w :: 0 <= w < |writers| ==> pos[w] <= |writers[w]|
    ensures forall w :: 0 <= w < |writers| ==> Share(p.written, who, w) == writers[w][..pos[w]]
  {
    hide Pipe.Valid, Marks;
    pos := seq(|writers|, w => 0);
    who := [];
    ValidParts(p);
    var i := 0;
    while i < |turns|
      invariant 0 <= i <= |turns| && p.Valid() && p.data == old(p.data)
      invariant |who| == |p.written| && |pos| == |writers|
      invariant forall w :: 0 <= w < |writers| ==> pos[w] <= |writers[w]|
      invariant forall w :: 0 <= w < |writers| ==> Share(p.written, who, w) == writers[w][..pos[w]]
    {
      match turns[i] {
        case Write(v, killed) =>
          if v < |writers| {
            ghost var before := p.written;
            var q, out := p.WriteTurn(writers[v], pos[v], killed);
            ghost var bs := writers[v][pos[v]..q];
            forall w | 0 <= w < |writers|
              ensures Share(p.written, who + Marks(v, |bs|), w) == writers[w][..if w == v then q else pos[w]]
            {
              ShareOfAppend(before, who, bs, v, w);
              assert w == v ==> writers[v][..pos[v]] + bs == writers[v][..q];
            }
            who := who + Marks(v, |bs|);
            pos := pos[v := q];
          }
        case Read(n, killed) =>
          var bytes, out := p.ReadTurn(n, killed);
        case CloseEnd(writable) =>
          var freed := p.Close(writable);
      }
      i := i + 1;
    }
    ValidParts(p);
  }
}
