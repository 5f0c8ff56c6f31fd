/** The kernel heap: a first-fit allocator on a doubly linked list of headers that lie in the
    heap itself. */
module KernelHeap {
  import opened Words
  import opened HeapChain
  import opened Wrappers

  /** A `BlockHeader` as it lies in memory. Address 0 is the null pointer. */
  datatype Header = Header(bytes: nat, free: bool, prev: nat, next: nat)

  function Prev(bs: Chain, i: nat): nat
    requires i < |bs|
  {
    if i == 0 then 0 else bs[i - 1].addr
  }

  function Next(bs: Chain, i: nat): nat
    requires i < |bs|
  {
    if i == |bs| - 1 then 0 else bs[i + 1].addr
  }

  /** Memory holds the header of every block, linked to its neighbours both ways. */
  ghost predicate Holds(headers: map<nat, Header>, bs: Chain) {
    forall i {:trigger headers[bs[i].addr]} {:trigger bs[i].addr in headers} :: 0 <= i < |bs| ==>
      bs[i].addr in headers && headers[bs[i].addr] == Header(bs[i].bytes, bs[i].free, Prev(bs, i), Next(bs, i))
  }

  /** Distinct blocks have distinct addresses. */
  ghost predicate Apart(bs: Chain) {
    forall i, j :: 0 <= i < |bs| && 0 <= j < |bs| && bs[i].addr == bs[j].addr ==> i == j
  }

  /** The header stores of `extend`. */
  function GrownHeaders(headers: map<nat, Header>, last: nat, newPage: nat): map<nat, Header>
    requires last in headers
  {
    var h := headers[last];
    if h.free then headers[last := Header(h.bytes + HEAP_PAGE, true, h.prev, h.next)]
    else
      var appended := headers[newPage := Header(HEAP_PAGE - HEADER, true, last, 0)];
      appended[last := Header(h.bytes, false, h.prev, newPage)]
  }

  lemma {:induction false} HoldsGrow(headers: map<nat, Header>, bs: Chain, base: nat, pages: nat)
    requires |bs| > 0 && Holds(headers, bs) && Apart(bs) && Apart(Grow(bs, base, pages))
    ensures Holds(GrownHeaders(headers, bs[|bs| - 1].addr, base + HEAP_PAGE * pages), Grow(bs, base, pages))
  {
    var r := Grow(bs, base, pages);
    var headers' := GrownHeaders(headers, bs[|bs| - 1].addr, base + HEAP_PAGE * pages);
    forall i | 0 <= i < |r|
      ensures r[i].addr in headers' && headers'[r[i].addr] == Header(r[i].bytes, r[i].free, Prev(r, i), Next(r, i))
    {
      assert r[|r| - 1].addr == r[i].addr ==> i == |r| - 1;
      if i < |bs| - 1 { assert bs[i].addr != bs[|bs| - 1].addr; }
    }
  }

  /** The header stores of `splitBlock`, and of marking the block as taken. */
  function TakenHeaders(headers: map<nat, Header>, a: nat, n: nat): map<nat, Header>
    requires a in headers && n <= headers[a].bytes && (headers[a].next != 0 ==> headers[a].next in headers)
  {
    var h := headers[a];
    if h.bytes - n >= HEADER + ALIGNMENT then
      var split := a + HEADER + n;
      var created := headers[split := Header(h.bytes - n - HEADER, true, a, h.next)];
      var linked := if h.next == 0 then created else SetPrev(created, h.next, split);
      linked[a := Header(n, false, h.prev, split)]
    else headers[a := Header(h.bytes, false, h.prev, h.next)]
  }

  function SetPrev(headers: map<nat, Header>, a: nat, prev: nat): map<nat, Header>
    requires a in headers
  {
    var h := headers[a];
    headers[a := Header(h.bytes, h.free, prev, h.next)]
  }

  lemma {:induction false} HoldsTake(headers: map<nat, Header>, bs: Chain, k: nat, n: nat)
    requires Holds(headers, bs) && Apart(bs) && k < |bs| && n <= bs[k].bytes && Apart(Take(bs, k, n))
    requires forall i :: 0 <= i < |bs| ==> bs[i].addr != 0
    ensures bs[k].addr in headers && (headers[bs[k].addr].next != 0 ==> headers[bs[k].addr].next in headers)
    ensures Holds(TakenHeaders(headers, bs[k].addr, n), Take(bs, k, n))
  {
    hide Take, Holds;
    TakeIndex(bs, k, n);
    NeighbourOf(headers, bs, k);
    NextNull(bs, k);
    if bs[k].bytes - n < HEADER + ALIGNMENT {
      HoldsMark(headers, bs, k);
    } else {
      HoldsSplit(headers, TakenHeaders(headers, bs[k].addr, n), bs, Take(bs, k, n), k);
    }
  }

  lemma {:induction false} NextNull(bs: Chain, k: nat)
    requires k < |bs| && forall i :: 0 <= i < |bs| ==> bs[i].addr != 0
    ensures Next(bs, k) != 0 <==> k < |bs| - 1
    ensures Next(bs, k) != 0 ==> Next(bs, k) == bs[k + 1].addr
  {}

  lemma {:induction false} HoldsMark(headers: map<nat, Header>, bs: Chain, k: nat)
    requires Holds(headers, bs) && Apart(bs) && k < |bs| && bs[k].addr in headers
    ensures var h := headers[bs[k].addr];
      Holds(headers[bs[k].addr := Header(h.bytes, false, h.prev, h.next)],
        bs[k := Block(bs[k].addr, bs[k].bytes, false)])
  {
    var r := bs[k := Block(bs[k].addr, bs[k].bytes, false)];
    forall i | 0 <= i < |r|
      ensures Prev(r, i) == Prev(bs, i) && Next(r, i) == Next(bs, i) && (i != k ==> r[i].addr != r[k].addr)
    {
      assert i != k ==> bs[i].addr != bs[k].addr;
    }
  }

  lemma {:induction false} HoldsSplit(headers: map<nat, Header>,
    headers': map<nat, Header>, bs: Chain, r: Chain, k: nat)
    requires Holds(headers, bs) && Apart(r) && |r| == |bs| + 1 && k < |bs|
    requires (forall j {:trigger r[j]} :: 0 <= j < k ==> r[j] == bs[j])
      && (forall j {:trigger r[j]} :: k + 1 < j < |r| ==> r[j] == bs[j - 1]) && r[k].addr == bs[k].addr
    requires var a, split := r[k].addr, r[k + 1].addr; var h := headers[a];
             var created := headers[split := Header(r[k + 1].bytes, r[k + 1].free, a, h.next)];
             var linked := if k + 2 == |r| then created else
                           created[r[k + 2].addr := Header(r[k + 2].bytes, r[k + 2].free, split, Next(bs, k + 1))];
             headers' == linked[a := Header(r[k].bytes, r[k].free, h.prev, split)]
    ensures Holds(headers', r)
  {
    forall i | 0 <= i < |r|
      ensures r[i].addr in headers' && headers'[r[i].addr] == Header(r[i].bytes, r[i].free, Prev(r, i), Next(r, i))
    {
      assert i != k ==> r[i].addr != r[k].addr;
      assert i != k + 1 ==> r[i].addr != r[k + 1].addr;
      if k + 2 < |r| { assert i != k + 2 ==> r[i].addr != r[k + 2].addr; }
      if i < k || i > k + 2 { OtherHeader(headers, headers', bs, r, k, i); }
    }
  }

  lemma {:induction false} TakeIndex(bs: Chain, k: nat, n: nat)
    requires k < |bs| && n <= bs[k].bytes
    ensures var r := Take(bs, k, n); var b := bs[k];
            if b.bytes - n >= HEADER + ALIGNMENT then
              && |r| == |bs| + 1 && r[k] == Block(b.addr, n, false)
              && r[k + 1] == Block(b.addr + HEADER + n, b.bytes - n - HEADER, true)
              && (forall i {:trigger r[i]} :: 0 <= i < k ==> r[i] == bs[i])
                && (forall i {:trigger r[i]} :: k + 1 < i < |r| ==> r[i] == bs[i - 1])
            else r == bs[k := Block(b.addr, b.bytes, false)]
  {
    if bs[k].bytes - n >= HEADER + ALIGNMENT {
      var r, left := Take(bs, k, n), bs[..k];
      assert |r| == |bs| + 1 && r[..k] == left;
      assert forall i {:trigger r[i]} :: k + 1 < i < |r| ==> r[i] == bs[k + 1..][i - k - 2];
    }
  }

  lemma {:induction false} OtherHeader(headers: map<nat, Header>,
    headers': map<nat, Header>, bs: Chain, r: Chain, k: nat, i: nat)
    requires Holds(headers, bs) && Apart(r) && |r| == |bs| + 1 && k < |bs| && i < |r| && (i < k || i > k + 2)
    requires r[k].addr == bs[k].addr && (forall j {:trigger r[j]} :: 0 <= j < k ==> r[j] == bs[j])
      && (forall j {:trigger r[j]} :: k + 1 < j < |r| ==> r[j] == bs[j - 1])
    requires forall a ::
      a in headers && a != r[k].addr && a != r[k + 1].addr && (k + 2 < |r| ==> a != r[k + 2].addr)
      ==> a in headers' && headers'[a] == headers[a]
    ensures r[i].addr in headers' && headers'[r[i].addr] == Header(r[i].bytes, r[i].free, Prev(r, i), Next(r, i))
  {
    var j := if i < k then i else i - 1;
    assert r[i] == bs[j];
    assert r[i].addr != r[k].addr && r[i].addr != r[k + 1].addr;
    if k + 2 < |r| { assert r[i].addr != r[k + 2].addr; }
  }

  function SetFree(headers: map<nat, Header>, a: nat): map<nat, Header>
    requires a in headers
  {
    var h := headers[a];
    headers[a := Header(h.bytes, true, h.prev, h.next)]
  }

  /** Block `a` swallows its successor. */
  function Swallow(headers: map<nat, Header>, a: nat): map<nat, Header>
    requires a in headers && headers[a].next in headers
    requires var n := headers[headers[a].next].next; n != 0 ==> n in headers
  {
    var h := headers[a];
    var next := headers[h.next];
    var grown := headers[a := Header(h.bytes + HEADER + next.bytes, h.free, h.prev, next.next)];
    if next.next == 0 then grown else SetPrev(grown, next.next, a)
  }

  lemma {:induction false} HoldsFree(headers: map<nat, Header>, bs: Chain, k: nat)
    requires Holds(headers, bs) && Apart(bs) && k < |bs|
    ensures Neighbour(headers, bs, k)
    ensures Holds(SetFree(headers, bs[k].addr), bs[k := bs[k].(free := true)])
  {
    var r := bs[k := bs[k].(free := true)];
    var headers' := SetFree(headers, bs[k].addr);
    forall i | 0 <= i < |r|
      ensures r[i].addr in headers' && headers'[r[i].addr] == Header(r[i].bytes, r[i].free, Prev(r, i), Next(r, i))
    {
      assert bs[i].addr in headers && headers[bs[i].addr] == Header(bs[i].bytes, bs[i].free, Prev(bs, i), Next(bs, i));
    }
  }

  /** The header of block `k` and those it points to are in memory. */
  predicate Neighbour(headers: map<nat, Header>, bs: Chain, k: nat) {
    && k < |bs| && bs[k].addr in headers
    && headers[bs[k].addr] == Header(bs[k].bytes, bs[k].free, Prev(bs, k), Next(bs, k))
    && (k + 1 < |bs| ==>
        && bs[k + 1].addr in headers
        && headers[bs[k + 1].addr] == Header(bs[k + 1].bytes, bs[k + 1].free, bs[k].addr, Next(bs, k + 1)))
    && (k + 2 < |bs| ==> bs[k + 2].addr in headers)
    && (k > 0 ==>
        && bs[k - 1].addr in headers && headers[bs[k - 1].addr].free == bs[k - 1].free
        && headers[bs[k - 1].addr].next == bs[k].addr)
  }

  lemma {:induction false} HoldsJoin(headers: map<nat, Header>, bs: Chain, k: nat)
    requires Holds(headers, bs) && Apart(bs) && k + 1 < |bs| && (forall i :: 0 <= i < |bs| ==> bs[i].addr != 0)
    ensures Neighbour(headers, bs, k)
    ensures Holds(Swallow(headers, bs[k].addr), Join(bs, k))
  {
    hide Join;
    var r := Join(bs, k);
    var headers' := Swallow(headers, bs[k].addr);
    assert Next(bs, k + 1) != 0 <==> k + 2 < |bs|;
    JoinIndex(bs, k);
    forall i | 0 <= i < |r|
      ensures r[i].addr in headers' && headers'[r[i].addr] == Header(r[i].bytes, r[i].free, Prev(r, i), Next(r, i))
    {
      var j := if i <= k then i else i + 1;
      assert bs[j].addr in headers && headers[bs[j].addr] == Header(bs[j].bytes, bs[j].free, Prev(bs, j), Next(bs, j));
      assert r[i].addr == bs[j].addr && (i != k ==> r[i] == bs[j]);
      assert j != k ==> bs[j].addr != bs[k].addr;
      if k + 2 < |bs| { assert j != k + 2 ==> bs[j].addr != bs[k + 2].addr; }
    }
  }

  lemma {:induction false} ApartJoin(bs: Chain, k: nat)
    requires Apart(bs) && k + 1 < |bs| && (forall i :: 0 <= i < |bs| ==> bs[i].addr != 0)
    ensures Apart(Join(bs, k)) && (forall i :: 0 <= i < |Join(bs, k)| ==> Join(bs, k)[i].addr != 0)
  {
    hide Join;
    JoinIndex(bs, k);
    var r := Join(bs, k);
    forall i, j | 0 <= i < |r| && 0 <= j < |r| && r[i].addr == r[j].addr ensures i == j {
      assert bs[if i <= k then i else i + 1].addr == bs[if j <= k then j else j + 1].addr;
    }
  }

  predicate CanSwallow(headers: map<nat, Header>, a: nat) {
    && a in headers && headers[a].next in headers
    && var n := headers[headers[a].next].next; n != 0 ==> n in headers
  }

  /** Join with the right neighbour if it is free. */
  function SwallowRight(headers: map<nat, Header>, a: nat): map<nat, Header>
    requires a in headers && (headers[a].next != 0 ==> CanSwallow(headers, a))
  {
    if headers[a].next != 0 && headers[headers[a].next].free then Swallow(headers, a) else headers
  }

  lemma {:induction false} HoldsRight(headers: map<nat, Header>, bs: Chain, k: nat) returns (h: map<nat, Header>)
    requires Holds(headers, bs) && Apart(bs) && k < |bs|
      && (forall i :: 0 <= i < |bs| ==> bs[i].addr != 0) && !bs[k].free
    ensures bs[k].addr in headers
    ensures var h1 := SetFree(headers, bs[k].addr);
      (h1[bs[k].addr].next != 0 ==> CanSwallow(h1, bs[k].addr)) && h == SwallowRight(h1, bs[k].addr)
    ensures var r := JoinedRight(bs, k);
      Holds(h, r) && Apart(r) && k < |r| && r[k].addr == bs[k].addr && (forall i :: 0 <= i < |r| ==> r[i].addr != 0)
    ensures var r := JoinedRight(bs, k); k > 0 ==> r[k - 1] == bs[k - 1]
  {
    HoldsFree(headers, bs, k);
    var freed := bs[k := bs[k].(free := true)];
    var h1 := SetFree(headers, bs[k].addr);
    assert Apart(freed) by {
      forall i, j | 0 <= i < |freed| && 0 <= j < |freed| && freed[i].addr == freed[j].addr
        ensures i == j
      {
        assert bs[i].addr == bs[j].addr;
      }
    }
    NeighbourOf(h1, freed, k);
    if k + 1 < |bs| && bs[k + 1].free {
      HoldsJoin(h1, freed, k);
      ApartJoin(freed, k);
    }
    h := SwallowRight(h1, bs[k].addr);
  }

  lemma {:induction false} HoldsLeft(headers: map<nat, Header>, bs: Chain, k: nat)
    requires Holds(headers, bs) && Apart(bs) && k < |bs| && (forall i :: 0 <= i < |bs| ==> bs[i].addr != 0)
    ensures bs[k].addr in headers
    ensures var p := headers[bs[k].addr].prev;
            && (p != 0 <==> k > 0)
            && (p != 0 ==> CanSwallow(headers, p) && headers[p].next == bs[k].addr && headers[p].free == bs[k - 1].free)
            && (k > 0 && bs[k - 1].free ==> Holds(Swallow(headers, p), Join(bs, k - 1)))
  {
    NeighbourOf(headers, bs, k);
    if k > 0 {
      NeighbourOf(headers, bs, k - 1);
      if bs[k - 1].free { HoldsJoin(headers, bs, k - 1); }
    }
  }

  /** What the heap asks of the kernel page tables: page `k` of the heap is mapped or unmapped. */
  datatype PageCall = Map(k: nat) | Unmap(k: nat)

  /** The calls are made in a sensible order and leave exactly the pages before `pages` mapped.
      Page 0 is never unmapped. */
  ghost predicate Replays(calls: seq<PageCall>, pages: nat) {
    if calls == [] then pages == 0
    else
      var c, before := calls[|calls| - 1], calls[..|calls| - 1];
      match c
      case Map(k) => pages == k + 1 && Replays(before, k)
      case Unmap(k) => k >= 1 && pages == k && Replays(before, k + 1)
  }

  lemma {:induction false} ReplaysMore(calls: seq<PageCall>, pages: nat, c: PageCall)
    requires Replays(calls, pages)
    ensures c == Map(pages) ==> Replays(calls + [c], pages + 1)
    ensures pages >= 2 && c == Unmap(pages - 1) ==> Replays(calls + [c], pages - 1)
  {
    assert (calls + [c])[..|calls|] == calls;
  }

  /** The pages mapped and the pages unmapped so far. */
  ghost function Maps(calls: seq<PageCall>): nat {
    if calls == [] then 0 else Maps(calls[..|calls| - 1]) + (if calls[|calls| - 1].Map? then 1 else 0)
  }

  ghost function Unmaps(calls: seq<PageCall>): nat {
    if calls == [] then 0 else Unmaps(calls[..|calls| - 1]) + (if calls[|calls| - 1].Unmap? then 1 else 0)
  }

  lemma {:induction false} CountMore(calls: seq<PageCall>, c: PageCall)
    ensures Maps(calls + [c]) == Maps(calls) + (if c.Map? then 1 else 0)
    ensures Unmaps(calls + [c]) == Unmaps(calls) + (if c.Unmap? then 1 else 0)
  {
    assert (calls + [c])[..|calls|] == calls;
  }

  /** The pages there are were mapped and have not been unmapped. */
  lemma {:induction false} PagesAreMapped(calls: seq<PageCall>, pages: nat)
    requires Replays(calls, pages)
    ensures Maps(calls) == pages + Unmaps(calls)
  {
    if calls != [] {
      var c, before := calls[|calls| - 1], calls[..|calls| - 1];
      PagesAreMapped(before, if c.Map? then c.k else c.k + 1);
    }
  }

  /** `Lib::alignUp` on 64-bit words: 0 when the result does not fit. */
  function AlignUp(val: Word, n: Word): Word
    requires n > 0
  {
    var rem := val % n;
    if rem == 0 then val else if val + (n - rem) >= TWO_64 then 0 else val + (n - rem)
  }

  /** `n + sizeof(BlockHeader)` on 64-bit words. */
  function WithHeader(n: Word): Word { (n + HEADER) % TWO_64 }

  /** The number of pages asked for when no block is big enough. */
  function RequiredPages(n: Word): nat { AlignUp(WithHeader(n), HEAP_PAGE) / HEAP_PAGE }

  /** The sizes for which that computation does not wrap around. */
  predicate Fits(n: Word) { n + HEADER <= TWO_64 - HEAP_PAGE }

  lemma {:induction false} RequiredIsEnough(n: Word)
    ensures Fits(n) ==>
      && RequiredPages(n) * HEAP_PAGE >= n + HEADER
      && RequiredPages(n) * HEAP_PAGE < n + HEADER + HEAP_PAGE
    ensures !Fits(n) ==> RequiredPages(n) <= 1
  {}

  /** Aligning rounds up by less than the alignment, or gives 0 at the very end of the range. */
  lemma {:induction false} AlignedRequest(n: Word)
    ensures AlignUp(n, ALIGNMENT) % ALIGNMENT == 0
    ensures n <= TWO_64 - ALIGNMENT ==> n <= AlignUp(n, ALIGNMENT) < n + ALIGNMENT
    ensures n > TWO_64 - ALIGNMENT ==> AlignUp(n, ALIGNMENT) == 0
  {}

  datatype Outcome = Pointer(p: nat) | Null | Panic

  lemma {:induction false} AddressesPositive(bs: Chain, base: nat, pages: nat)
    requires Sound(bs, base, pages)
    ensures forall i :: 0 <= i < |bs| ==> bs[i].addr != 0
  {
    forall i | 0 <= i < |bs| ensures bs[i].addr != 0 { AddressAligned(bs, base, base + HEAP_PAGE * pages, i); }
  }

  lemma {:induction false} HoldsShorten(headers: map<nat, Header>, bs: Chain)
    requires |bs| > 0 && Holds(headers, bs) && Apart(bs) && bs[|bs| - 1].bytes >= HEAP_PAGE
    ensures var a := bs[|bs| - 1].addr;
      (a in headers
        && Holds(headers[a := Header(headers[a].bytes - HEAP_PAGE, headers[a].free, headers[a].prev, 0)],
        HeapChain.Shorten(bs)))
  {
    NeighbourOf(headers, bs, |bs| - 1);
    var r := HeapChain.Shorten(bs);
    var a := bs[|bs| - 1].addr;
    var headers' := headers[a := Header(headers[a].bytes - HEAP_PAGE, headers[a].free, headers[a].prev, 0)];
    forall i | 0 <= i < |r|
      ensures r[i].addr in headers' && headers'[r[i].addr] == Header(r[i].bytes, r[i].free, Prev(r, i), Next(r, i))
    {
      assert bs[i].addr in headers && headers[bs[i].addr] == Header(bs[i].bytes, bs[i].free, Prev(bs, i), Next(bs, i));
      assert i != |bs| - 1 ==> bs[i].addr != a;
    }
  }

  lemma {:induction false} TrimmedIsSmall(bs: Chain)
    requires |bs| > 0 && AlignedSizes(bs)
    ensures bs[|bs| - 1].free && bs[|bs| - 1].bytes < HEAP_PAGE
      ==> bs[|bs| - 1].bytes <= HEAP_PAGE - ALIGNMENT && Trim(bs) == bs && TrimmedPages(bs) == 0
    ensures !bs[|bs| - 1].free ==> Trim(bs) == bs && TrimmedPages(bs) == 0
  {}

  lemma {:induction false} NeighbourOf(headers: map<nat, Header>, bs: Chain, k: nat)
    requires Holds(headers, bs) && k < |bs|
    ensures Neighbour(headers, bs, k)
  {}

  lemma {:induction false} BlockAligned(bs: Chain, base: nat, pages: nat, k: nat)
    requires Sound(bs, base, pages) && k < |bs|
    ensures bs[k].bytes % ALIGNMENT == 0
  {}

  lemma {:induction false} GrowReady(headers: map<nat, Header>, bs: Chain, base: nat, pages: nat)
    requires Sound(bs, base, pages) && Holds(headers, bs)
    ensures |bs| > 0 && bs[|bs| - 1].addr in headers
    ensures Sound(Grow(bs, base, pages), base, pages + 1)
    ensures Holds(GrownHeaders(headers, bs[|bs| - 1].addr, base + HEAP_PAGE * pages), Grow(bs, base, pages))
  {
    hide Sound, Holds, Grow;
    SoundEnds(bs, base, pages);
    NeighbourOf(headers, bs, |bs| - 1);
    GrowSound(bs, base, pages);
    SoundApart(bs, base, pages);
    SoundApart(Grow(bs, base, pages), base, pages + 1);
    HoldsGrow(headers, bs, base, pages);
  }

  lemma {:induction false} SoundApart(bs: Chain, base: nat, pages: nat)
    requires Sound(bs, base, pages)
    ensures Apart(bs) && forall i :: 0 <= i < |bs| ==> bs[i].addr != 0
  {
    AddressesDiffer(bs, base, base + HEAP_PAGE * pages);
    AddressesPositive(bs, base, pages);
  }

  lemma {:induction false} TakeReady(headers: map<nat, Header>, bs: Chain, base: nat, pages: nat, k: nat, n: nat)
    requires Sound(bs, base, pages) && Holds(headers, bs) && k < |bs|
      && bs[k].free && n <= bs[k].bytes && n % ALIGNMENT == 0
    ensures Sound(Take(bs, k, n), base, pages)
    ensures bs[k].addr in headers && (headers[bs[k].addr].next != 0 ==> headers[bs[k].addr].next in headers)
    ensures headers[bs[k].addr].bytes == bs[k].bytes
    ensures headers[bs[k].addr].next != 0 ==> headers[bs[k].addr].next == bs[k].End()
    ensures Holds(TakenHeaders(headers, bs[k].addr, n), Take(bs, k, n))
  {
    hide Sound, Holds, Take;
    NeighbourOf(headers, bs, k);
    if k + 1 < |bs| { NextAddress(bs, base, pages, k); }
    TakeSound(bs, base, pages, k, n);
    SoundApart(bs, base, pages);
    SoundApart(Take(bs, k, n), base, pages);
    HoldsTake(headers, bs, k, n);
  }

  lemma {:induction false} ShortenReady(headers: map<nat, Header>, bs: Chain, base: nat, pages: nat)
    requires Sound(bs, base, pages) && Holds(headers, bs) && |bs| > 0
      && bs[|bs| - 1].free && bs[|bs| - 1].bytes >= HEAP_PAGE
    ensures pages >= 2 && Sound(HeapChain.Shorten(bs), base, pages - 1)
    ensures var a := bs[|bs| - 1].addr;
      (a in headers && headers[a].bytes == base + HEAP_PAGE * pages - (a + HEADER)
       && Holds(headers[a := Header(headers[a].bytes - HEAP_PAGE, headers[a].free, headers[a].prev, 0)],
         HeapChain.Shorten(bs)))
  {
    hide Sound, Holds, HeapChain.Shorten;
    SoundEnds(bs, base, pages);
    NeighbourOf(headers, bs, |bs| - 1);
    ShortenSound(bs, base, pages);
    SoundApart(bs, base, pages);
    HoldsShorten(headers, bs);
  }

  /** The last block is free and a page or more, so `free` gives pages back. */
  predicate LosesPages(bs: Chain) {
    |bs| > 0 && bs[|bs| - 1].free && bs[|bs| - 1].bytes >= HEAP_PAGE
  }

  lemma {:induction false} LosesIff(bs: Chain)
    requires |bs| > 0
    ensures TrimmedPages(bs) == 0 <==> !LosesPages(bs)
  {}

  class HeapAllocator {
    const base: nat
    var pages: nat
    var currBlock: nat
    var hdr: nat
    /** The headers in heap memory, by address; those of former blocks stay behind as bytes. */
    var headers: map<nat, Header>
    /** The frames `Pmm::allocateFrame` can still supply before it panics. */
    var frames: nat
    /** The page table calls made so far. */
    ghost var calls: seq<PageCall>
    /** The frames the heap could have had in all. */
    ghost const supply: nat
    ghost var chain: Chain

    ghost predicate Valid()
      reads this
    {
      && Sound(chain, base, pages) && Holds(headers, chain) && hdr == base
      && Replays(calls, pages) && frames + Maps(calls) == supply
    }

    /** The frames that are neither left nor in the heap: `shorten` unmaps a page and forgets its frame. */
    ghost function Lost(): (n: nat)
      requires Valid()
      reads this
      ensures n == Unmaps(calls) && frames + pages + n == supply
    {
      PagesAreMapped(calls, pages);
      Unmaps(calls)
    }

    /** `init`: one mapped page holding one free block. */
    constructor (base: nat, frames: nat)
      requires base > 0 && base % ALIGNMENT == 0 && frames > 0
      ensures Valid() && this.base == base && pages == 1 && chain == Initial(base) && this.frames == frames - 1
      ensures supply == frames && calls == [Map(0)] && Lost() == 0
    {
      this.base := base;
      this.frames := frames - 1;
      pages := 1;
      currBlock := 0;
      hdr := base;
      headers := map[base := Header(HEAP_PAGE - HEADER, true, 0, 0)];
      calls := [Map(0)];
      supply := frames;
      chain := Initial(base);
      new;
      assert [Map(0)][..0] == [];
    }

    /** `block_list.last()` */
    method Last() returns (r: nat)
      requires Valid()
      ensures r == chain[|chain| - 1].addr
    {
      AddressesPositive(chain, base, pages);
      r := hdr;
      ghost var i := 0;
      while headers[r].next != 0
        invariant 0 <= i < |chain| && r == chain[i].addr
        decreases |chain| - i
      {
        r := headers[r].next;
        i := i + 1;
      }
    }

    /** The first free block of at least `minSize` bytes, or null. */
    method FindFreeBlock(minSize: nat) returns (r: nat, ghost k: nat)
      requires Valid()
      ensures k <= |chain| && (r == 0 <==> k == |chain|)
      ensures k < |chain| ==> r == chain[k].addr && chain[k].free && chain[k].bytes >= minSize
      ensures forall i :: 0 <= i < k && i < |chain| ==> !(chain[i].free && chain[i].bytes >= minSize)
    {
      AddressesPositive(chain, base, pages);
      r := hdr;
      k := 0;
      while r != 0
        invariant 0 <= k <= |chain| && (k < |chain| ==> r == chain[k].addr) && (k == |chain| ==> r == 0)
        invariant forall i :: 0 <= i < k ==> !(chain[i].free && chain[i].bytes >= minSize)
        decreases |chain| - k
      {
        if headers[r].free && headers[r].bytes >= minSize {
          return;
        }
        r := headers[r].next;
        k := k + 1;
      }
    }

    /** Map one more page. `ok` is false when `allocateFrame` panics. */
    method Extend() returns (ok: bool)
      requires Valid()
      modifies this
      ensures ok == (old(frames) > 0)
      ensures !ok ==> chain == old(chain) && pages == old(pages) && frames == old(frames)
      ensures ok ==> chain == Grow(old(chain), base, old(pages)) && pages == old(pages) + 1 && frames == old(frames) - 1
      ensures calls == if ok then old(calls) + [Map(old(pages))] else old(calls)
      ensures Valid()
    {
      hide Sound, Holds, Replays, Grow, Maps;
      if frames == 0 {
        return false;
      }
      SoundEnds(chain, base, pages);
      GrowReady(headers, chain, base, pages);
      ReplaysMore(calls, pages, Map(pages));
      CountMore(calls, Map(pages));
      var last := Last();
      var newPage := base + HEAP_PAGE * pages;
      ghost var after := GrownHeaders(headers, last, newPage);
      frames := frames - 1;
      calls := calls + [Map(pages)];
      if headers[last].free {
        headers := headers[last := headers[last].(bytes := headers[last].bytes + HEAP_PAGE)];
      } else {
        headers := headers[newPage := Header(HEAP_PAGE - HEADER, true, last, 0)];
        headers := headers[last := headers[last].(next := newPage)];
      }
      assert headers == after;
      chain := Grow(chain, base, pages);
      pages := pages + 1;
      ok := true;
    }

    /** Split off what block `currBlock` has beyond `baseSize` bytes, if a block fits in it. The
        block is then marked as taken, as the caller does next. */
    method TakeBlock(baseSize: nat, ghost k: nat)
      requires Valid() && k < |chain| && currBlock == chain[k].addr && chain[k].free
      requires baseSize <= chain[k].bytes && baseSize % ALIGNMENT == 0
      modifies this
      ensures Valid() && chain == Take(old(chain), k, baseSize)
      ensures pages == old(pages) && frames == old(frames) && calls == old(calls)
    {
      hide Sound, Holds, Take, Replays;
      TakeReady(headers, chain, base, pages, k, baseSize);
      ghost var after := TakenHeaders(headers, currBlock, baseSize);
      var b := headers[currBlock];
      var rem := b.bytes - baseSize;
      if rem >= HEADER + ALIGNMENT {
        var blockBase := currBlock + HEADER + baseSize;
        headers := headers[blockBase := Header(rem - HEADER, true, currBlock, b.next)];
        if b.next != 0 {
          headers := headers[b.next := headers[b.next].(prev := blockBase)];
        }
        headers := headers[currBlock := headers[currBlock].(next := blockBase, bytes := baseSize)];
      }
      headers := headers[currBlock := headers[currBlock].(free := false)];
      assert headers == after;
      chain := Take(chain, k, baseSize);
    }

    method MarkFree(a: nat)
      requires a in headers
      modifies this`headers
      ensures headers == SetFree(old(headers), a)
    {
      headers := headers[a := headers[a].(free := true)];
    }

    /** The stores by which block `a` swallows the block after it. */
    method SwallowNext(a: nat)
      requires CanSwallow(headers, a)
      modifies this`headers
      ensures headers == Swallow(old(headers), a)
    {
      var next := headers[a].next;
      headers :=
        headers[a := headers[a].(bytes := headers[a].bytes + HEADER + headers[next].bytes, next := headers[next].next)];
      if headers[a].next != 0 {
        headers := headers[headers[a].next := headers[headers[a].next].(prev := a)];
      }
    }

    /** The coalescing half of `free`: block `k` becomes free and joins its free neighbours. */
    method ReleaseBlock(a: nat, ghost k: nat)
      requires Valid() && k < |chain| && a == chain[k].addr && !chain[k].free
      modifies this
      ensures Valid() && chain == Release(old(chain), k)
      ensures pages == old(pages) && frames == old(frames) && calls == old(calls)
    {
      hide Sound, Holds, Apart, Release, JoinedRight, Replays;
      SoundApart(chain, base, pages);
      ReleaseSound(chain, base, pages, k);
      ghost var h2 := HoldsRight(headers, chain, k);
      HoldsLeft(h2, JoinedRight(chain, k), k);
      MarkFree(a);
      var next := headers[a].next;
      if next != 0 && headers[next].free {
        SwallowNext(a);
      }
      var prev := headers[a].prev;
      if prev != 0 && headers[prev].free {
        SwallowNext(prev);
      }
      ReleaseParts(chain, k);
      chain := Release(chain, k);
    }

    /** Unmap the last page if the heap can do without it. */
    method Shorten() returns (r: bool)
      requires Valid()
      modifies this
      ensures Valid() && frames == old(frames)
      ensures r == (old(pages) > 1 && old(chain)[|old(chain)| - 1].free
        && old(chain)[|old(chain)| - 1].bytes >= HEAP_PAGE)
      ensures if r then chain == HeapChain.Shorten(old(chain)) && pages == old(pages) - 1
        else chain == old(chain) && pages == old(pages)
      ensures calls == if r then old(calls) + [Unmap(pages)] else old(calls)
    {
      hide Sound, Holds, Replays, HeapChain.Shorten, Maps;
      SoundEnds(chain, base, pages);
      if pages <= 1 {
        return false;
      }
      var lastPage := base + HEAP_PAGE * (pages - 1);
      ShortenGuard(chain, base, pages);
      var reaches := LiveReaches(lastPage);
      if reaches {
        return false;
      }
      var last := Last();
      ghost var n := |chain| - 1;
      NeighbourOf(headers, chain, n);
      if !headers[last].free {
        return false;
      }
      if last >= lastPage {
        assert false;
      } else if last + HEADER <= lastPage {
        ShortenReady(headers, chain, base, pages);
        ReplaysMore(calls, pages, Unmap(pages - 1));
        CountMore(calls, Unmap(pages - 1));
        headers := headers[last := headers[last].(bytes := lastPage - (last + HEADER), next := 0)];
        chain := HeapChain.Shorten(chain);
      } else {
        return false;
      }
      calls := calls + [Unmap(pages - 1)];
      pages := pages - 1;
      r := true;
    }

    /** The scan of `shorten`: does a live block reach the last page? */
    method LiveReaches(lastPage: nat) returns (r: bool)
      requires Valid()
      ensures r <==> exists i :: 0 <= i < |chain| && !chain[i].free && chain[i].End() >= lastPage
    {
      AddressesPositive(chain, base, pages);
      var curr := hdr;
      ghost var k := 0;
      while curr != 0
        invariant 0 <= k <= |chain| && (k < |chain| ==> curr == chain[k].addr) && (k == |chain| ==> curr == 0)
        invariant forall i :: 0 <= i < k ==> !(!chain[i].free && chain[i].End() >= lastPage)
        decreases |chain| - k
      {
        NeighbourOf(headers, chain, k);
        var currEnd := curr + HEADER + headers[curr].bytes;
        if !headers[curr].free && currEnd >= lastPage {
          return true;
        }
        curr := headers[curr].next;
        k := k + 1;
      }
      r := false;
    }

    /** The payload address `p` belongs to block `k`. */
    ghost predicate PayloadOf(p: nat, k: nat)
      reads this
    {
      k < |chain| && p == chain[k].Payload()
    }

    /** `free`. `ok` is false for the double-free panic, which is taken exactly for a block that is
        free already. A pointer that is not the payload of a block is outside the contract of the
        source. */
    method Free(p: nat, ghost k: nat) returns (ok: bool)
      requires Valid() && PayloadOf(p, k)
      modifies this
      ensures Valid() && frames == old(frames)
      ensures ok == !old(chain)[k].free
      ensures !ok ==> chain == old(chain) && pages == old(pages)
      ensures ok ==> chain == Trim(Release(old(chain), k)) && pages == old(pages) - TrimmedPages(Release(old(chain), k))
      ensures ok ==> Live(chain) == Live(old(chain)) - {old(chain)[k]}
      ensures ok && chain[|chain| - 1].free ==> chain[|chain| - 1].bytes <= HEAP_PAGE - ALIGNMENT
      ensures ok ==>
        (frames + pages == old(frames + pages) <==> !LosesPages(Release(old(chain), k)))
    {
      hide Sound, Holds, Maps, LosesPages, Replays, Live, Trim, TrimmedPages, Release, HeapChain.Shorten, AlignedSizes;
      var a := p - HEADER;
      NeighbourOf(headers, chain, k);
      if headers[a].free {
        return false;
      }
      ghost var bs := Release(chain, k);
      ReleaseSound(chain, base, pages, k);
      ReleaseBlock(a, k);
      ghost var live := Live(chain);
      SoundEnds(chain, base, pages);
      while pages > 1
        invariant |chain| > 0 && |bs| > 0
        invariant Valid() && frames == old(frames) && Live(chain) == live
        invariant Trim(chain) == Trim(bs) && pages - TrimmedPages(chain) == old(pages) - TrimmedPages(bs)
        invariant pages >= 1
        decreases pages
      {
        var last := Last();
        SoundEnds(chain, base, pages);
        NeighbourOf(headers, chain, |chain| - 1);
        if !headers[last].free {
          break;
        }
        TrimStep(chain);
        if chain[|chain| - 1].bytes >= HEAP_PAGE { ShortenSound(chain, base, pages); }
        var shortened := Shorten();
        if !shortened {
          break;
        }
        SoundEnds(chain, base, pages);
      }
      SoundEnds(chain, base, pages);
      if pages == 1 { OnePage(chain, base); }
      TrimmedIsSmall(chain);
      LosesIff(bs);
      ok := true;
    }

    /** `allocate`. `Panic` is the out-of-memory panic of the frame allocator. */
    method Allocate(n: Word) returns (r: Outcome, ghost k: nat)
      requires Valid()
      modifies this
      ensures Valid()
      ensures r.Pointer? ==>
        && PayloadOf(r.p, k) && !chain[k].free
        && Live(chain) == Live(old(chain)) + {chain[k]} && chain[k] !in Live(old(chain))
      ensures r.Pointer? ==> var m := AlignUp(n, ALIGNMENT); m <= chain[k].bytes <= m + HEADER && r.p % ALIGNMENT == 0
      ensures !r.Pointer? ==> Live(chain) == Live(old(chain))
      ensures frames + pages == old(frames + pages)
      ensures FirstFit(old(chain), AlignUp(n, ALIGNMENT)).Some? ==>
                r.Pointer? && r.p == old(chain)[FirstFit(old(chain), AlignUp(n, ALIGNMENT)).value].Payload()
                  && pages == old(pages)
      ensures FirstFit(old(chain), AlignUp(n, ALIGNMENT)).None? ==>
                var m := AlignUp(n, ALIGNMENT);
                && (r.Panic? <==> old(frames) < RequiredPages(m))
                && (!r.Panic? ==> pages == old(pages) + RequiredPages(m) && frames == old(frames) - RequiredPages(m))
                && (!r.Panic? && Fits(m) ==> r.Pointer?)
                && (!Fits(m) && HEAP_PAGE * (old(pages) + 1) < m ==> !r.Pointer?)
    {
      var m := AlignUp(n, ALIGNMENT);
      AlignedRequest(n);
      hide AlignUp, RequiredPages, Sound, FirstFit;
      var block: nat;
      block, k := FindFreeBlock(m);
      FoundFirst(chain, m, k);
      if block == 0 {
        var grown := ExtendBy(RequiredPages(m));
        if !grown {
          return Panic, k;
        }
        RequiredIsEnough(m);
        block, k := FindFreeBlock(m);
        if block == 0 {
          return Null, k;
        }
        BlockFits(chain, base, pages, k);
      }
      currBlock := block;
      HandOut(m, k);
      r := Pointer(block + HEADER);
    }

    /** The end of `allocate`: split the block found and mark it as taken. */
    method HandOut(m: nat, ghost k: nat)
      requires Valid() && k < |chain| && currBlock == chain[k].addr
        && chain[k].free && m <= chain[k].bytes && m % ALIGNMENT == 0
      modifies this
      ensures Valid() && pages == old(pages) && frames == old(frames)
      ensures k < |chain| && chain[k].addr == old(chain)[k].addr && !chain[k].free
      ensures Live(chain) == Live(old(chain)) + {chain[k]} && chain[k] !in Live(old(chain))
      ensures m <= chain[k].bytes <= m + HEADER && chain[k].Payload() % ALIGNMENT == 0
    {
      hide Sound, Holds, Replays, Live, Take, AlignedSizes;
      TakeIndex(chain, k, m);
      TakeLive(chain, base, pages, k, m);
      TakeBlock(m, k);
      BlockFits(chain, base, pages, k);
      BlockAligned(chain, base, pages, k);
    }

    /** The loop of `allocate` that maps the required pages. */
    method ExtendBy(required: nat) returns (ok: bool)
      requires Valid()
      modifies this
      ensures Valid() && Live(chain) == Live(old(chain))
      ensures ok <==> old(frames) >= required
      ensures ok ==> pages == old(pages) + required && frames == old(frames) - required
      ensures ok && required > 0
        ==> exists i :: 0 <= i < |chain| && chain[i].free && chain[i].bytes + HEADER >= required * HEAP_PAGE
      ensures ok && required == 0 ==> chain == old(chain)
      ensures frames + pages == old(frames + pages)
    {
      ghost var bs := chain;
      var i := 0;
      while i < required
        invariant i <= required && Valid() && Live(chain) == Live(bs)
        invariant pages == old(pages) + i && frames == old(frames) - i && i <= old(frames)
        invariant i > 0 ==> chain[|chain| - 1].free && chain[|chain| - 1].bytes + HEADER >= i * HEAP_PAGE
        invariant i == 0 ==> chain == bs
      {
        GrowSound(chain, base, pages);
        ok := Extend();
        if !ok {
          return;
        }
        i := i + 1;
      }
      ok := true;
    }
  }

  /** The first free block of at least `n` bytes. */
  ghost function FirstFit(bs: Chain, n: nat): Option<nat> {
    if exists i: nat :: IsFirstFit(bs, n, i) then var i: nat :| IsFirstFit(bs, n, i); Some(i) else None
  }

  predicate IsFirstFit(bs: Chain, n: nat, i: nat) {
    i < |bs| && bs[i].free && bs[i].bytes >= n && forall j :: 0 <= j < i ==> !(bs[j].free && bs[j].bytes >= n)
  }

  lemma {:induction false} FoundFirst(bs: Chain, n: nat, k: nat)
    requires k <= |bs| && (k < |bs| ==> bs[k].free && bs[k].bytes >= n)
      && forall i :: 0 <= i < k ==> !(bs[i].free && bs[i].bytes >= n)
    ensures FirstFit(bs, n) == if k < |bs| then Some(k) else None
  {
    if k < |bs| { assert IsFirstFit(bs, n, k); }
  }
}
