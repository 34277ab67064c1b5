/** Ordered block lists: the free list of device memory and of instruction memory. */
module BlockList {
  /** One contiguous entry: an address, a size in bytes, and whether it is free. */
  datatype Block = Block(offset: nat, size: nat, free: bool)

  function End(b: Block): nat { b.offset + b.size }

  /** Non-empty blocks in address order that cover [base, base + size) without gaps. */
  predicate Tiles(bs: seq<Block>, base: nat, size: nat)
    decreases |bs|
  {
    if bs == [] then size == 0
    else
      && bs[0].offset == base && 0 < bs[0].size <= size
      && Tiles(bs[1..], base + bs[0].size, size - bs[0].size)
  }

  /** No two neighbours are both free. */
  predicate Settled(bs: seq<Block>)
    decreases |bs|
  {
    |bs| < 2 || (!(bs[0].free && bs[1].free) && Settled(bs[1..]))
  }

  /** The live blocks, in address order. */
  function Busy(bs: seq<Block>): seq<Block> {
    if bs == [] then []
    else if bs[0].free then Busy(bs[1..])
    else [bs[0]] + Busy(bs[1..])
  }

  function FreeBytes(bs: seq<Block>): nat {
    if bs == [] then 0 else (if bs[0].free then bs[0].size else 0) + FreeBytes(bs[1..])
  }

  function LiveBytes(bs: seq<Block>): nat {
    if bs == [] then 0 else bs[0].size + LiveBytes(bs[1..])
  }

  ghost predicate ByteFree(bs: seq<Block>, x: nat) {
    exists i :: 0 <= i < |bs| && bs[i].free && bs[i].offset <= x < End(bs[i])
  }

  // ----- order -----

  lemma {:induction false} TilesConcat(a: seq<Block>, b: seq<Block>, base: nat, n: nat, m: nat)
    requires Tiles(a, base, n)
    ensures Tiles(a + b, base, n + m) <==> Tiles(b, base + n, m)
    decreases |a|
  {
    if a == [] {
      assert a + b == b;
    } else {
      assert (a + b)[1..] == a[1..] + b;
      TilesConcat(a[1..], b, base + a[0].size, n - a[0].size, m);
    }
  }

  /** The bytes in front of block i. */
  lemma {:induction false} TilesSplit(bs: seq<Block>, base: nat, size: nat, i: nat) returns (n: nat)
    requires Tiles(bs, base, size) && i <= |bs|
    ensures n <= size && Tiles(bs[..i], base, n) && Tiles(bs[i..], base + n, size - n)
    decreases i
  {
    if i == 0 {
      n := 0;
    } else {
      n := TilesSplit(bs[1..], base + bs[0].size, size - bs[0].size, i - 1);
      n := n + bs[0].size;
      assert bs[..i][1..] == bs[1..][..i - 1];
    }
  }

  lemma Within(bs: seq<Block>, base: nat, size: nat, i: nat)
    requires Tiles(bs, base, size) && i < |bs|
    ensures base <= bs[i].offset && 0 < bs[i].size && End(bs[i]) <= base + size
  {
    var n := TilesSplit(bs, base, size, i);
  }

  lemma Ordered(bs: seq<Block>, base: nat, size: nat, i: nat, j: nat)
    requires Tiles(bs, base, size) && i < j < |bs|
    ensures End(bs[i]) <= bs[j].offset
  {
    var n := TilesSplit(bs, base, size, i);
    var rest := bs[i + 1..];
    assert bs[i..][1..] == rest;
    Within(rest, base + n + bs[i].size, size - n - bs[i].size, j - i - 1);
  }

  lemma {:induction false} SettledAt(bs: seq<Block>, i: nat)
    requires Settled(bs) && i + 1 < |bs|
    ensures !(bs[i].free && bs[i + 1].free)
    decreases i
  {
    if i > 0 { SettledAt(bs[1..], i - 1); }
  }

  /** Two settled lists meet settled unless both touching blocks are free. */
  lemma {:induction false} SettledConcat(a: seq<Block>, b: seq<Block>)
    ensures Settled(a + b) <==> Settled(a) && Settled(b) && !(a != [] && b != [] && a[|a| - 1].free && b[0].free)
    decreases |a|
  {
    if a == [] {
      assert a + b == b;
    } else {
      assert (a + b)[1..] == a[1..] + b;
      SettledConcat(a[1..], b);
    }
  }

  lemma {:induction false} BusyConcat(a: seq<Block>, b: seq<Block>)
    ensures Busy(a + b) == Busy(a) + Busy(b)
  {
    if a == [] {
      assert a + b == b;
    } else {
      assert (a + b)[1..] == a[1..] + b;
      BusyConcat(a[1..], b);
    }
  }

  lemma {:induction false} BusyIn(bs: seq<Block>, b: Block)
    ensures b in Busy(bs) <==> b in bs && !b.free
  {
    if bs != [] { BusyIn(bs[1..], b); }
  }

  /** A live block lies inside the range, and two live blocks do not overlap. */
  lemma LiveApart(bs: seq<Block>, base: nat, size: nat, b: Block, d: Block)
    requires Tiles(bs, base, size) && b in Busy(bs) && d in Busy(bs)
    ensures base <= b.offset && End(b) <= base + size
    ensures b != d ==> End(b) <= d.offset || End(d) <= b.offset
  {
    BusyIn(bs, b);
    BusyIn(bs, d);
    var i :| 0 <= i < |bs| && bs[i] == b;
    var j :| 0 <= j < |bs| && bs[j] == d;
    Within(bs, base, size, i);
    if i < j {
      Ordered(bs, base, size, i, j);
    } else if j < i {
      Ordered(bs, base, size, j, i);
    }
  }

  /** Conservation: free and live bytes add up to the managed range. */
  lemma {:induction false} Conservation(bs: seq<Block>, base: nat, size: nat)
    requires Tiles(bs, base, size)
    ensures FreeBytes(bs) + LiveBytes(Busy(bs)) == size
    decreases |bs|
  {
    if bs != [] { Conservation(bs[1..], base + bs[0].size, size - bs[0].size); }
  }

  // ----- the canonical form -----

  /** The first live block of a list that starts free is its second block. */
  lemma FirstBusy(bs: seq<Block>, base: nat, size: nat)
    requires Tiles(bs, base, size) && Settled(bs) && bs != [] && bs[0].free
    ensures Busy(bs) == [] ==> bs == [Block(base, size, true)]
    ensures Busy(bs) != [] ==> |bs| > 1 && Busy(bs)[0] == bs[1] && base + bs[0].size == bs[1].offset
  {
    if |bs| == 1 {
      assert bs[1..] == [] && bs == [bs[0]];
      assert Busy(bs) == Busy(bs[1..]);
    } else {
      assert bs[1..][0] == bs[1];
      assert Busy(bs) == Busy(bs[1..]) == [bs[1]] + Busy(bs[1..][1..]);
    }
  }

  /** The block list is determined by the managed range and its live blocks: two settled tilings
      with the same live blocks are the same list. */
  lemma {:induction false} Canonical(a: seq<Block>, b: seq<Block>, base: nat, size: nat)
    requires Tiles(a, base, size) && Settled(a) && Tiles(b, base, size) && Settled(b)
    requires Busy(a) == Busy(b)
    ensures a == b
    decreases |a|
  {
    if a != [] && b != [] {
      if a[0].free { FirstBusy(a, base, size); }
      if b[0].free { FirstBusy(b, base, size); }
      assert a[0] == b[0] by {
        assert !a[0].free ==> Busy(a)[0] == a[0];
        assert !b[0].free ==> Busy(b)[0] == b[0];
      }
      assert a == [a[0]] + a[1..] && b == [b[0]] + b[1..];
      assert !a[0].free ==> Busy(a)[1..] == Busy(a[1..]) && Busy(b)[1..] == Busy(b[1..]);
      Canonical(a[1..], b[1..], base + a[0].size, size - a[0].size);
    }
  }

  // ----- merging free neighbours -----

  function Merge(bs: seq<Block>): seq<Block>
    decreases |bs|
  {
    if |bs| < 2 then bs
    else if bs[0].free && bs[1].free && End(bs[0]) == bs[1].offset then
      Merge([Block(bs[0].offset, bs[0].size + bs[1].size, true)] + bs[2..])
    else [bs[0]] + Merge(bs[1..])
  }

  /** Merging settles a tiling and leaves the live blocks alone. */
  lemma {:induction false} MergeSettles(bs: seq<Block>, base: nat, size: nat)
    requires Tiles(bs, base, size)
    ensures Tiles(Merge(bs), base, size) && Settled(Merge(bs)) && Busy(Merge(bs)) == Busy(bs)
    ensures bs != [] ==> Merge(bs) != [] && Merge(bs)[0].free == bs[0].free
    decreases |bs|
  {
    if |bs| >= 2 {
      if bs[0].free && bs[1].free {
        var joined := [Block(bs[0].offset, bs[0].size + bs[1].size, true)] + bs[2..];
        assert bs[1..][1..] == bs[2..] && joined[1..] == bs[2..];
        MergeSettles(joined, base, size);
      } else {
        MergeSettles(bs[1..], base + bs[0].size, size - bs[0].size);
        assert Merge(bs)[1..] == Merge(bs[1..]);
      }
    }
  }
}
