/** The blocks of a heap as a value: what tiles the heap, what is live, and what splitting and
    coalescing do to it. */
module HeapChain {
  const HEADER := 32   // sizeof(BlockHeader)
  const ALIGNMENT := 16
  const HEAP_PAGE := 0x1000

  /** A block: the address of its header, the size of its payload and whether it is free. */
  datatype Block = Block(addr: nat, bytes: nat, free: bool) {
    /** The first address past the block. */
    function End(): nat { addr + HEADER + bytes }
    function Payload(): nat { addr + HEADER }
  }

  type Chain = seq<Block>

  /** The blocks lie one after another from `base` to `end`, without gap or overlap. */
  ghost predicate Tiles(bs: Chain, base: nat, end: nat) {
    && |bs| > 0 && bs[0].addr == base && bs[|bs| - 1].End() == end
    && forall i, j :: 0 <= i < |bs| && j == i + 1 < |bs| ==> bs[j].addr == bs[i].End()
  }

  ghost predicate AlignedSizes(bs: Chain) { forall i :: 0 <= i < |bs| ==> bs[i].bytes % ALIGNMENT == 0 }

  /** Coalescing missed nothing. */
  ghost predicate NoFreeNeighbours(bs: Chain) {
    forall i, j :: 0 <= i < |bs| && j == i + 1 < |bs| ==> !(bs[i].free && bs[j].free)
  }

  ghost predicate Sound(bs: Chain, base: nat, pages: nat) {
    && base % ALIGNMENT == 0 && base > 0 && pages >= 1
    && Tiles(bs, base, base + HEAP_PAGE * pages) && AlignedSizes(bs) && NoFreeNeighbours(bs)
  }

  /** The blocks that have been handed out. */
  function Live(bs: Chain): set<Block> { set b | b in bs && !b.free }

  // ---------- Geometry ----------

  lemma {:induction false} Ordered(bs: Chain, base: nat, end: nat, i: nat, j: nat)
    requires Tiles(bs, base, end) && i < j < |bs|
    ensures bs[i].End() <= bs[j].addr
  {
    if i + 1 < j { Ordered(bs, base, end, i, j - 1); }
  }

  lemma {:induction false} AddressesDiffer(bs: Chain, base: nat, end: nat)
    requires Tiles(bs, base, end)
    ensures forall i, j :: 0 <= i < |bs| && 0 <= j < |bs| && bs[i].addr == bs[j].addr ==> i == j
  {
    forall i, j | 0 <= i < |bs| && 0 <= j < |bs| && bs[i].addr == bs[j].addr ensures i == j {
      if i < j { Ordered(bs, base, end, i, j); }
      if j < i { Ordered(bs, base, end, j, i); }
    }
  }

  /** The payload of a live block is aligned, lies inside the heap behind its header, and overlaps no other
      block, live or free: neither its payload nor its header. */
  lemma {:induction false} LiveBlocksDisjoint(bs: Chain, base: nat, pages: nat, a: Block, b: Block)
    requires Sound(bs, base, pages) && a in Live(bs) && b in bs
    ensures a.Payload() % ALIGNMENT == 0 && base <= a.addr && a.End() <= base + HEAP_PAGE * pages
    ensures a != b ==> a.End() <= b.addr || b.End() <= a.addr
  {
    var end := base + HEAP_PAGE * pages;
    var i :| 0 <= i < |bs| && bs[i] == a;
    var j :| 0 <= j < |bs| && bs[j] == b;
    if i < j { Ordered(bs, base, end, i, j); }
    if j < i { Ordered(bs, base, end, j, i); }
    if i < |bs| - 1 { Ordered(bs, base, end, i, |bs| - 1); }
    AddressAligned(bs, base, end, i);
  }

  lemma {:induction false} AddressAligned(bs: Chain, base: nat, end: nat, i: nat)
    requires Tiles(bs, base, end) && AlignedSizes(bs) && base % ALIGNMENT == 0 && i < |bs|
    ensures bs[i].addr % ALIGNMENT == 0 && base <= bs[i].addr
  {
    if i > 0 { AddressAligned(bs, base, end, i - 1); }
  }

  // ---------- Splitting and coalescing ----------

  /** `splitBlock` and marking: block `k` is handed out with `n` bytes, the rest stays free when a
      header and an aligned payload fit in it. */
  function Take(bs: Chain, k: nat, n: nat): Chain
    requires k < |bs| && n <= bs[k].bytes
  {
    var b := bs[k];
    if b.bytes - n >= HEADER + ALIGNMENT then
      bs[..k] + [Block(b.addr, n, false), Block(b.addr + HEADER + n, b.bytes - n - HEADER, true)] + bs[k + 1..]
    else
      bs[k := b.(free := false)]
  }

  lemma {:induction false} TakeSound(bs: Chain, base: nat, pages: nat, k: nat, n: nat)
    requires Sound(bs, base, pages) && k < |bs| && bs[k].free && n <= bs[k].bytes && n % ALIGNMENT == 0
    ensures Sound(Take(bs, k, n), base, pages)
  {
    TakeTiles(bs, base, base + HEAP_PAGE * pages, k, n);
    TakeNeighbours(bs, k, n);
  }

  lemma {:induction false} TakeTiles(bs: Chain, base: nat, end: nat, k: nat, n: nat)
    requires Tiles(bs, base, end) && AlignedSizes(bs) && k < |bs| && n <= bs[k].bytes && n % ALIGNMENT == 0
    ensures Tiles(Take(bs, k, n), base, end) && AlignedSizes(Take(bs, k, n))
  {
    var r := Take(bs, k, n);
    var b := bs[k];
    if b.bytes - n >= HEADER + ALIGNMENT {
      assert (b.bytes - n - HEADER) % ALIGNMENT == 0;
      assert r[k] == Block(b.addr, n, false) && r[k + 1] == Block(b.addr + HEADER + n, b.bytes - n - HEADER, true);
      assert forall i {:trigger r[i]} :: 0 <= i < k ==> r[i] == bs[i];
      assert forall i {:trigger r[i]} :: k + 2 <= i < |r| ==> r[i] == bs[i - 1];
      forall i, j | 0 <= i < |r| && j == i + 1 < |r| ensures r[j].addr == r[i].End() {
        if j <= k { assert bs[j].addr == bs[i].End(); }
        if i > k { assert bs[j - 1].addr == bs[if i == k + 1 then k else i - 1].End(); }
      }
    }
  }

  lemma {:induction false} TakeNeighbours(bs: Chain, k: nat, n: nat)
    requires NoFreeNeighbours(bs) && k < |bs| && bs[k].free && n <= bs[k].bytes
    ensures NoFreeNeighbours(Take(bs, k, n))
  {
    var r := Take(bs, k, n);
    if bs[k].bytes - n >= HEADER + ALIGNMENT {
      assert forall i {:trigger r[i]} :: 0 <= i < k ==> r[i] == bs[i];
      assert forall i {:trigger r[i]} :: k + 2 <= i < |r| ==> r[i] == bs[i - 1];
      assert k + 1 < |bs| ==> !bs[k + 1].free;
    }
  }

  /** Handing out a block adds exactly that block to the live ones. */
  lemma {:induction false} TakeLive(bs: Chain, base: nat, pages: nat, k: nat, n: nat)
    requires Sound(bs, base, pages) && k < |bs| && bs[k].free && n <= bs[k].bytes
    ensures var b := Take(bs, k, n)[k];
            && Live(Take(bs, k, n)) == Live(bs) + {b} && b !in Live(bs) && b.addr == bs[k].addr && !b.free
            && n <= b.bytes < n + HEADER + ALIGNMENT
            && b.bytes == if bs[k].bytes < n + 48 then bs[k].bytes else n
  {
    var r := Take(bs, k, n);
    if bs[k].bytes - n >= HEADER + ALIGNMENT {
      assert forall i {:trigger r[i]} :: 0 <= i < k ==> r[i] == bs[i];
      assert forall i {:trigger r[i]} :: k + 2 <= i < |r| ==> r[i] == bs[i - 1];
      assert forall i :: k + 1 <= i < |bs| ==> r[i + 1] == bs[i];
    }
    AddressesDiffer(bs, base, base + HEAP_PAGE * pages);
    forall b ensures b in Live(r) <==> b in Live(bs) || b == r[k] {
      if b in Live(bs) {
        var i :| 0 <= i < |bs| && bs[i] == b;
        assert i != k;
        assert r[if i < k || |r| == |bs| then i else i + 1] == b;
      }
    }
  }

  /** Blocks `k` and `k + 1` become one. */
  function Join(bs: Chain, k: nat): Chain
    requires k + 1 < |bs|
  {
    bs[..k] + [Block(bs[k].addr, bs[k].bytes + HEADER + bs[k + 1].bytes, bs[k].free)] + bs[k + 2..]
  }

  lemma {:induction false} JoinTiles(bs: Chain, base: nat, end: nat, k: nat)
    requires Tiles(bs, base, end) && AlignedSizes(bs) && k + 1 < |bs|
    ensures Tiles(Join(bs, k), base, end) && AlignedSizes(Join(bs, k))
  {
    var r := Join(bs, k);
    assert forall i {:trigger r[i]} :: 0 <= i < k ==> r[i] == bs[i];
    assert forall i {:trigger r[i]} :: k + 1 <= i < |r| ==> r[i] == bs[i + 1];
  }

  lemma {:induction false} JoinLive(bs: Chain, k: nat)
    requires k + 1 < |bs| && bs[k].free && bs[k + 1].free
    ensures Live(Join(bs, k)) == Live(bs)
  {
    var r := Join(bs, k);
    forall b | b in Live(bs) ensures b in Live(r) {
      var i :| 0 <= i < |bs| && bs[i] == b;
      assert r[if i < k then i else i - 1] == b;
    }
    forall b | b in Live(r) ensures b in Live(bs) {
      var i :| 0 <= i < |r| && r[i] == b;
      assert bs[if i < k then i else i + 1] == b;
    }
  }

  /** Block `k` becomes free and joins its right neighbour if that is free. */
  function JoinedRight(bs: Chain, k: nat): Chain
    requires k < |bs|
  {
    var freed := bs[k := bs[k].(free := true)];
    if k + 1 < |bs| && bs[k + 1].free then Join(freed, k) else freed
  }

  /** `free` without the give-back: block `k` becomes free and joins its free neighbours. */
  function Release(bs: Chain, k: nat): Chain
    requires k < |bs|
  {
    var right := JoinedRight(bs, k);
    if k > 0 && bs[k - 1].free then Join(right, k - 1) else right
  }

  lemma {:induction false} ReleaseSound(bs: Chain, base: nat, pages: nat, k: nat)
    requires Sound(bs, base, pages) && k < |bs| && !bs[k].free
    ensures Sound(Release(bs, k), base, pages) && Live(Release(bs, k)) == Live(bs) - {bs[k]}
  {
    var end := base + HEAP_PAGE * pages;
    assert Tiles(bs, base, end) && AlignedSizes(bs) && NoFreeNeighbours(bs);
    AddressesDiffer(bs, base, end);
    ReleaseTiles(bs, base, end, k);
    ReleaseNeighbours(bs, k);
    FreedLive(bs, k);
    ReleaseLive(bs, k);
  }

  lemma {:induction false} ReleaseTiles(bs: Chain, base: nat, end: nat, k: nat)
    requires Tiles(bs, base, end) && AlignedSizes(bs) && k < |bs|
    ensures Tiles(Release(bs, k), base, end) && AlignedSizes(Release(bs, k))
  {
    hide Tiles, AlignedSizes;
    var freed := bs[k := bs[k].(free := true)];
    FreedTiles(bs, base, end, k);
    if k + 1 < |bs| && bs[k + 1].free { JoinTiles(freed, base, end, k); }
    if k > 0 && bs[k - 1].free { JoinTiles(JoinedRight(bs, k), base, end, k - 1); }
  }

  lemma {:induction false} FreedTiles(bs: Chain, base: nat, end: nat, k: nat)
    requires Tiles(bs, base, end) && AlignedSizes(bs) && k < |bs|
    ensures Tiles(bs[k := bs[k].(free := true)], base, end) && AlignedSizes(bs[k := bs[k].(free := true)])
  {}

  lemma {:induction false} ReleaseLive(bs: Chain, k: nat)
    requires k < |bs|
    ensures Live(Release(bs, k)) == Live(bs[k := bs[k].(free := true)])
  {
    if k + 1 < |bs| && bs[k + 1].free { JoinLive(bs[k := bs[k].(free := true)], k); }
    if k > 0 && bs[k - 1].free { JoinLive(JoinedRight(bs, k), k - 1); }
  }

  lemma {:induction false} FreedLive(bs: Chain, k: nat)
    requires k < |bs| && !bs[k].free
      && forall i, j :: 0 <= i < |bs| && 0 <= j < |bs| && bs[i].addr == bs[j].addr ==> i == j
    ensures Live(bs[k := bs[k].(free := true)]) == Live(bs) - {bs[k]}
  {
    var freed := bs[k := bs[k].(free := true)];
    forall b | b in Live(bs) && b != bs[k] ensures b in Live(freed) {
      var i :| 0 <= i < |bs| && bs[i] == b;
      assert freed[i] == b;
    }
    forall b | b in Live(freed) ensures b in Live(bs) && b != bs[k] {
      var i :| 0 <= i < |freed| && freed[i] == b;
      assert bs[i] == b;
    }
  }

  lemma {:induction false} ReleaseNeighbours(bs: Chain, k: nat)
    requires NoFreeNeighbours(bs) && k < |bs| && !bs[k].free
    ensures NoFreeNeighbours(Release(bs, k))
  {
    hide Release;
    var r := Release(bs, k);
    ReleaseIndex(bs, k);
    var lo, hi := Lo(bs, k), Hi(bs, k);
    forall i, j | 0 <= i < |r| && j == i + 1 < |r| ensures !(r[i].free && r[j].free) {
      if i == lo { assert r[j] == bs[hi]; } else if j == lo { assert r[i] == bs[i]; }
    }
  }

  /** The blocks that `free` makes one are `Lo` to just before `Hi`. */
  function Lo(bs: Chain, k: nat): nat
    requires k < |bs|
  {
    if k > 0 && bs[k - 1].free then k - 1 else k
  }

  function Hi(bs: Chain, k: nat): nat
    requires k < |bs|
  {
    if k + 1 < |bs| && bs[k + 1].free then k + 2 else k + 1
  }

  lemma {:induction false} ReleaseIndex(bs: Chain, k: nat)
    requires k < |bs|
    ensures var r := Release(bs, k); var lo, hi := Lo(bs, k), Hi(bs, k);
            && |r| == lo + 1 + (|bs| - hi)
            && (forall i {:trigger r[i]} :: 0 <= i < lo ==> r[i] == bs[i])
            && (forall i {:trigger r[i]} :: lo < i < |r| ==> r[i] == bs[i + hi - lo - 1])
            && r[lo].addr == bs[lo].addr && r[lo].free
  {
    hide Join, JoinedRight;
    RightIndex(bs, k);
    ReleaseParts(bs, k);
    if k > 0 && bs[k - 1].free { JoinIndex(JoinedRight(bs, k), k - 1); }
  }

  lemma {:induction false} ReleaseParts(bs: Chain, k: nat)
    requires k < |bs|
    ensures |JoinedRight(bs, k)| > k
    ensures Release(bs, k) == if k > 0 && bs[k - 1].free then Join(JoinedRight(bs, k), k - 1) else JoinedRight(bs, k)
  {}

  lemma {:induction false} JoinIndex(bs: Chain, k: nat)
    requires k + 1 < |bs|
    ensures var r := Join(bs, k);
            && |r| == |bs| - 1 && r[k] == Block(bs[k].addr, bs[k].bytes + HEADER + bs[k + 1].bytes, bs[k].free)
            && (forall i {:trigger r[i]} :: 0 <= i < k ==> r[i] == bs[i])
            && (forall i {:trigger r[i]} :: k < i < |r| ==> r[i] == bs[i + 1])
  {}

  lemma {:induction false} RightIndex(bs: Chain, k: nat)
    requires k < |bs|
    ensures var r := JoinedRight(bs, k); var hi := Hi(bs, k);
            && |r| == k + 1 + (|bs| - hi) && r[k].addr == bs[k].addr && r[k].free
            && (forall i {:trigger r[i]} :: 0 <= i < k ==> r[i] == bs[i])
            && (forall i {:trigger r[i]} :: k < i < |r| ==> r[i] == bs[i + hi - k - 1])
  {
    hide Join;
    var freed := bs[k := bs[k].(free := true)];
    if k + 1 < |bs| && bs[k + 1].free { JoinIndex(freed, k); }
  }

  // ---------- Growing and giving back ----------

  /** `extend`: one more page, as part of a free last block or as a new block. */
  function Grow(bs: Chain, base: nat, pages: nat): Chain
    requires |bs| > 0
  {
    var last := bs[|bs| - 1];
    if last.free then bs[|bs| - 1 := last.(bytes := last.bytes + HEAP_PAGE)]
    else bs + [Block(base + HEAP_PAGE * pages, HEAP_PAGE - HEADER, true)]
  }

  lemma {:induction false} GrowSound(bs: Chain, base: nat, pages: nat)
    requires Sound(bs, base, pages)
    ensures Sound(Grow(bs, base, pages), base, pages + 1) && Live(Grow(bs, base, pages)) == Live(bs)
    ensures var r := Grow(bs, base, pages); r[|r| - 1].free
  {
    GrowTiles(bs, base, pages);
    GrowLive(bs, base, pages);
  }

  lemma {:induction false} GrowTiles(bs: Chain, base: nat, pages: nat)
    requires Sound(bs, base, pages)
    ensures Sound(Grow(bs, base, pages), base, pages + 1)
  {
    var r := Grow(bs, base, pages);
    var last := bs[|bs| - 1];
    assert forall i {:trigger r[i]} :: 0 <= i < |bs| - 1 ==> r[i] == bs[i];
    assert r[|bs| - 1].addr == last.addr && r[|bs| - 1].bytes % ALIGNMENT == 0;
    if !last.free { assert r[|bs|].addr == last.End() && r[|bs| - 1] == last; }
    hide Grow;
  }

  lemma {:induction false} GrowLive(bs: Chain, base: nat, pages: nat)
    requires |bs| > 0
    ensures Live(Grow(bs, base, pages)) == Live(bs)
  {
    var r := Grow(bs, base, pages);
    forall b | b in Live(bs) ensures b in Live(r) {
      var i :| 0 <= i < |bs| && bs[i] == b;
      assert r[i] == b;
    }
    forall b | b in Live(r) ensures b in Live(bs) {
      var i :| 0 <= i < |r| && r[i] == b;
      assert bs[i] == b;
    }
  }

  /** One round of `shorten`: a free last block loses a page. */
  function Shorten(bs: Chain): Chain
    requires |bs| > 0 && bs[|bs| - 1].bytes >= HEAP_PAGE
  {
    bs[|bs| - 1 := bs[|bs| - 1].(bytes := bs[|bs| - 1].bytes - HEAP_PAGE)]
  }

  lemma {:induction false} ShortenSound(bs: Chain, base: nat, pages: nat)
    requires Sound(bs, base, pages) && bs[|bs| - 1].free && bs[|bs| - 1].bytes >= HEAP_PAGE
    ensures pages >= 2
    ensures Sound(Shorten(bs), base, pages - 1) && Live(Shorten(bs)) == Live(bs)
  {
    var r := Shorten(bs);
    AddressAligned(bs, base, base + HEAP_PAGE * pages, |bs| - 1);
    forall b | b in Live(bs) ensures b in Live(r) {
      var i :| 0 <= i < |bs| && bs[i] == b;
      assert r[i] == b;
    }
    forall b | b in Live(r) ensures b in Live(bs) {
      var i :| 0 <= i < |r| && r[i] == b;
      assert bs[i] == b;
    }
  }

  /** `shorten` gives the last page back exactly when the last block is free and a page or more:
      no live block then reaches the last page, and the block starts a header or more before it.
      Its branch that drops a whole last block is dead. */
  lemma {:induction false} ShortenGuard(bs: Chain, base: nat, pages: nat)
    requires Sound(bs, base, pages) && pages > 1
    ensures var last := bs[|bs| - 1];
            var lastPage := base + HEAP_PAGE * (pages - 1);
            var reached := exists i :: 0 <= i < |bs| && !bs[i].free && bs[i].End() >= lastPage;
            && (reached || !last.free || !(last.addr + HEADER <= lastPage) <==> !(last.free && last.bytes >= HEAP_PAGE))
            && (last.free && last.addr >= lastPage ==> reached)
  {
    var end := base + HEAP_PAGE * pages;
    var n := |bs| - 1;
    var last := bs[n];
    var lastPage := base + HEAP_PAGE * (pages - 1);
    assert last.bytes >= HEAP_PAGE <==> last.addr + HEADER <= lastPage;
    if last.free && last.bytes >= HEAP_PAGE {
      forall i | 0 <= i < |bs| && !bs[i].free ensures bs[i].End() < lastPage {
        Ordered(bs, base, end, i, n);
      }
    }
    if last.free && last.addr >= lastPage {
      assert n > 0;
      assert !bs[n - 1].free && bs[n - 1].End() == last.addr;
    }
  }

  /** The heap after `init`: one page, one free block. */
  function Initial(base: nat): Chain { [Block(base, HEAP_PAGE - HEADER, true)] }

  /** A trimmed heap without live blocks is the heap `init` made. */
  lemma {:induction false} EmptyHeapIsInitial(bs: Chain, base: nat, pages: nat)
    requires Sound(bs, base, pages) && Live(bs) == {}
      && (bs[|bs| - 1].free ==> bs[|bs| - 1].bytes <= HEAP_PAGE - ALIGNMENT)
    ensures bs == Initial(base) && pages == 1
  {
    forall i | 0 <= i < |bs| ensures bs[i].free { LiveHas(bs, i); }
    if |bs| > 1 { TwoBlocks(bs); }
  }

  lemma {:induction false} LiveHas(bs: Chain, i: nat)
    requires i < |bs|
    ensures !bs[i].free ==> bs[i] in Live(bs)
  {}

  lemma {:induction false} TwoBlocks(bs: Chain)
    requires NoFreeNeighbours(bs) && |bs| > 1
    ensures !bs[0].free || !bs[1].free
  {}

  lemma {:induction false} NextAddress(bs: Chain, base: nat, pages: nat, k: nat)
    requires Sound(bs, base, pages) && k + 1 < |bs|
    ensures bs[k + 1].addr == bs[k].End()
  {}

  lemma {:induction false} SoundEnds(bs: Chain, base: nat, pages: nat)
    requires Sound(bs, base, pages)
    ensures |bs| > 0 && pages >= 1 && bs[0].addr == base
      && AlignedSizes(bs) && bs[|bs| - 1].End() == base + HEAP_PAGE * pages
  {}

  /** What the give-back loop of `free` leaves: a free last block of less than a page. */
  function Trim(bs: Chain): Chain
    requires |bs| > 0
  {
    var last := bs[|bs| - 1];
    if last.free then bs[|bs| - 1 := last.(bytes := last.bytes % HEAP_PAGE)] else bs
  }

  function TrimmedPages(bs: Chain): nat
    requires |bs| > 0
  {
    var last := bs[|bs| - 1];
    if last.free then last.bytes / HEAP_PAGE else 0
  }

  lemma {:induction false} TrimStep(bs: Chain)
    requires |bs| > 0 && bs[|bs| - 1].free
    ensures bs[|bs| - 1].bytes < HEAP_PAGE ==> Trim(bs) == bs && TrimmedPages(bs) == 0
    ensures bs[|bs| - 1].bytes >= HEAP_PAGE
      ==> Trim(Shorten(bs)) == Trim(bs) && TrimmedPages(bs) == TrimmedPages(Shorten(bs)) + 1
  {}

  /** No block is a page or more when there is only one page. */
  lemma {:induction false} OnePage(bs: Chain, base: nat)
    requires Sound(bs, base, 1)
    ensures bs[|bs| - 1].bytes < HEAP_PAGE
  {
    AddressAligned(bs, base, base + HEAP_PAGE, |bs| - 1);
  }

  /** A block of the chain lies inside the heap. */
  lemma {:induction false} BlockFits(bs: Chain, base: nat, pages: nat, k: nat)
    requires Sound(bs, base, pages) && k < |bs|
    ensures bs[k].bytes + HEADER <= HEAP_PAGE * pages && bs[k].addr % ALIGNMENT == 0
  {
    var end := base + HEAP_PAGE * pages;
    AddressAligned(bs, base, end, k);
    if k < |bs| - 1 { Ordered(bs, base, end, k, |bs| - 1); }
  }
}
