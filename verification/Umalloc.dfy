/**
  The storage allocator of umalloc.c: an address-ordered circular free list of
  headers, walked and rewritten in place.  Addresses are counted in units of
  one header (8 bytes).
 */
module Umalloc {

  import opened Results

  datatype Header = Header(ptr: nat, size: nat)

  type Memory = map<nat, Header>

  const HEADER: nat := 8
  const UINT_LIMIT := 0x1_0000_0000
  const INT_LIMIT := 0x8000_0000

  /** ring is a cycle of s.ptr links. */
  predicate Linked(mem: Memory, ring: seq<nat>) {
    && |ring| > 0
    && (forall i :: 0 <= i < |ring| ==> ring[i] in mem)
    && (forall i :: 0 <= i < |ring| - 1 ==> mem[ring[i]].ptr == ring[i + 1])
    && mem[ring[|ring| - 1]].ptr == ring[0]
  }

  predicate Ascending(order: seq<nat>) {
    forall i, j :: 0 <= i < j < |order| ==> order[i] < order[j]
  }

  /** The same cycle entered at another place. */
  function Rotate(ring: seq<nat>, k: nat): (r: seq<nat>)
    requires k <= |ring|
  {
    ring[k..] + ring[..k]
  }

  lemma RotateAt(ring: seq<nat>, k: nat, i: nat)
    requires k <= |ring| && i < |ring|
    ensures |Rotate(ring, k)| == |ring|
    ensures Rotate(ring, k)[i] == if k + i < |ring| then ring[k + i] else ring[k + i - |ring|]
  {
  }

  lemma RotateLinked(mem: Memory, ring: seq<nat>, k: nat)
    requires Linked(mem, ring) && k <= |ring|
    ensures Linked(mem, Rotate(ring, k))
    ensures Rotate(ring, k)[|ring| - 1] == if k == 0 then ring[|ring| - 1] else ring[k - 1]
  {
    var r := Rotate(ring, k);
    var n := |ring|;
    forall i | 0 <= i < n
      ensures r[i] in mem && mem[r[i]].ptr == if i + 1 < n then r[i + 1] else r[0]
    {
      RotateAt(ring, k, i);
      RotateAt(ring, k, if i + 1 < n then i + 1 else 0);
    }
    RotateAt(ring, k, n - 1);
  }

  lemma RotateMembers(ring: seq<nat>, k: nat)
    requires k <= |ring|
    ensures forall a :: a in Rotate(ring, k) <==> a in ring
  {
    assert ring == ring[..k] + ring[k..];
  }

  /** p = order[i] is where free() stops: bp lies between p and its successor. */
  predicate Gap(order: seq<nat>, i: nat, bp: nat)
  {
    i < |order| && order[i] < bp && (i + 1 < |order| ==> bp < order[i + 1])
  }

  lemma {:induction false} GapExists(order: seq<nat>, bp: nat) returns (i: nat)
    requires |order| > 0 && Ascending(order) && order[0] < bp && bp !in order
    ensures Gap(order, i, bp)
  {
    i := 0;
    while i + 1 < |order| && order[i + 1] < bp
      invariant i < |order| && order[i] < bp
    {
      i := i + 1;
    }
  }

  /** The exit test of the loop in free(), umalloc.c:30-31. */
  predicate Stops(p: nat, next: nat, bp: nat) {
    (bp > p && bp < next) || (p >= next && (bp > p || bp < next))
  }

  /** In an ascending cycle the loop stops exactly at the gap. */
  lemma StopsAtGap(order: seq<nat>, i: nat, bp: nat)
    requires |order| > 0 && Ascending(order) && order[0] < bp && bp !in order && i < |order|
    ensures Stops(order[i], if i + 1 < |order| then order[i + 1] else order[0], bp) <==> Gap(order, i, bp)
  {
    if i + 1 == |order| && i > 0 {
      assert order[0] < order[i];
    }
  }

  /**
    The heap and who holds what.  order is the free list from base on, live the
    blocks handed out, and own maps every unit ever obtained to the header of
    the one block that contains it.
   */
  datatype Heap = Heap(mem: Memory, order: seq<nat>, live: set<nat>, own: map<nat, nat>)

  function End(mem: Memory, a: nat): nat
    requires a in mem
  {
    a + mem[a].size
  }

  /** The block at a is non-empty and its units are its own. */
  ghost predicate Block(h: Heap, a: nat) {
    && a in h.mem && h.mem[a].size >= 1
    && forall u :: a <= u < End(h.mem, a) ==> u in h.own && h.own[u] == a
  }

  ghost predicate Head(h: Heap, base: nat, a: nat) {
    a in h.live || (a in h.order && a != base)
  }

  /** The free list is one address-ordered cycle through base. */
  ghost predicate Cycle(h: Heap, base: nat) {
    && Linked(h.mem, h.order) && h.order[0] == base && h.mem[base].size == 0
    && Ascending(h.order)
  }

  /** The unit u lies in the block own says. */
  ghost predicate Owned(h: Heap, base: nat, u: nat)
    requires u in h.own
  {
    u in h.mem && Head(h, base, h.own[u]) && h.own[u] in h.mem && h.own[u] <= u < End(h.mem, h.own[u])
  }

  /** Blocks tile the memory obtained: every unit lies in exactly one of them. */
  ghost predicate Tiled(h: Heap, base: nat) {
    && (forall a :: Head(h, base, a) ==> base < a && Block(h, a))
    && (forall u :: u in h.own ==> Owned(h, base, u))
    && (forall a :: a in h.live ==> a !in h.order && a in h.mem)
  }

  ghost predicate Loose(h: Heap, base: nat) {
    Cycle(h, base) && Tiled(h, base)
  }

  /** Free block number k does not abut the next one. */
  ghost predicate Apart(h: Heap, k: int) {
    0 <= k < |h.order| - 1 && h.order[k] in h.mem ==> End(h.mem, h.order[k]) < h.order[k + 1]
  }

  ghost predicate Tidy(h: Heap, base: nat) {
    Loose(h, base) && forall i :: 0 <= i < |h.order| - 1 ==> Apart(h, i)
  }

  /** The blocks in held keep their units and everything written in them. */
  ghost predicate Untouched(h: Heap, g: Heap, held: set<nat>) {
    && held <= g.live
    && forall u :: u in h.own && h.own[u] in held ==>
         u in g.own && g.own[u] == h.own[u] && u in h.mem && u in g.mem && g.mem[u] == h.mem[u]
  }

  /** The successor of order[i] on the cycle. */
  function Next(order: seq<nat>, i: nat): nat
    requires i < |order|
  {
    if i + 1 < |order| then order[i + 1] else order[0]
  }

  // The list operations that free() and malloc() are made of.

  /** Put the live block bp back on the free list behind order[i]. */
  function Insert(h: Heap, i: nat, bp: nat): (g: Heap)
    requires i < |h.order| && h.order[i] in h.mem && bp in h.mem
  {
    Heap(h.mem[bp := h.mem[bp].(ptr := Next(h.order, i))][h.order[i] := h.mem[h.order[i]].(ptr := bp)],
         h.order[..i + 1] + [bp] + h.order[i + 1..], h.live - {bp}, h.own)
  }

  /** Make one block of order[j] and order[j + 1], which abut. */
  function Merge(h: Heap, j: nat): (g: Heap)
    requires j + 1 < |h.order| && h.order[j] in h.mem && h.order[j + 1] in h.mem
  {
    var a, b := h.order[j], h.order[j + 1];
    Heap(h.mem[a := Header(h.mem[b].ptr, h.mem[a].size + h.mem[b].size)],
         h.order[..j + 1] + h.order[j + 2..], h.live,
         map u | u in h.own :: if b <= u < End(h.mem, b) then a else h.own[u])
  }

  /** Take order[j] off the list and hand it out whole. */
  function Unlink(h: Heap, j: nat): (g: Heap)
    requires 1 <= j < |h.order| && h.order[j] in h.mem && h.order[j - 1] in h.mem
  {
    Heap(h.mem[h.order[j - 1] := h.mem[h.order[j - 1]].(ptr := h.mem[h.order[j]].ptr)],
         h.order[..j] + h.order[j + 1..], h.live + {h.order[j]}, h.own)
  }

  /** Hand out the last n units of order[j]. */
  function Split(h: Heap, j: nat, n: nat): (g: Heap)
    requires j < |h.order| && h.order[j] in h.mem && h.mem[h.order[j]].size > n
    requires End(h.mem, h.order[j]) - n in h.mem
  {
    var p := h.order[j];
    var q := End(h.mem, p) - n;
    Heap(h.mem[p := h.mem[p].(size := h.mem[p].size - n)][q := h.mem[q].(size := n)],
         h.order, h.live + {q},
         map u | u in h.own :: if q <= u < q + n then q else h.own[u])
  }

  predicate Within(u: nat, p: nat, n: nat) {
    p <= u < p + n
  }

  /** n fresh units at p, from sbrk, as one block to be freed. */
  function Grow(h: Heap, p: nat, n: nat): (g: Heap) {
    Heap(h.mem + map u: nat | p <= u < p + n && Within(u, p, n) :: Header(0, if u == p then n else 0),
         h.order, h.live + {p},
         h.own + map u: nat | p <= u < p + n && Within(u, p, n) :: p)
  }

  lemma InsertAt(order: seq<nat>, i: nat, bp: nat, k: nat)
    requires i < |order| && k <= |order|
    ensures var g := order[..i + 1] + [bp] + order[i + 1..];
            && |g| == |order| + 1
            && g[k] == if k <= i then order[k] else if k == i + 1 then bp else order[k - 1]
  {
  }

  lemma InsertLink(h: Heap, i: nat, bp: nat, k: nat)
    requires Linked(h.mem, h.order) && i < |h.order| && bp in h.mem && bp !in h.order
    requires Ascending(h.order) && k <= |h.order|
    ensures var g := Insert(h, i, bp);
            g.order[k] in g.mem && g.mem[g.order[k]].ptr == if k < |h.order| then g.order[k + 1] else g.order[0]
  {
    InsertAt(h.order, i, bp, k);
    InsertAt(h.order, i, bp, if k < |h.order| then k + 1 else 0);
    NextInMem(h.mem, h.order, i);
    if k > i + 1 {
      NextInMem(h.mem, h.order, k - 1);
      assert h.order[i] < h.order[k - 1];
    } else if k < i {
      assert h.order[k] < h.order[i];
    }
  }

  lemma InsertLinked(h: Heap, i: nat, bp: nat)
    requires Linked(h.mem, h.order) && i < |h.order| && bp in h.mem && bp !in h.order
    requires Ascending(h.order)
    ensures Linked(Insert(h, i, bp).mem, Insert(h, i, bp).order)
  {
    var g := Insert(h, i, bp);
    forall k | 0 <= k < |g.order|
      ensures g.order[k] in g.mem
      ensures g.mem[g.order[k]].ptr == if k + 1 < |g.order| then g.order[k + 1] else g.order[0]
    {
      InsertLink(h, i, bp, k);
    }
  }

  lemma WithoutAt(order: seq<nat>, j: nat, k: nat)
    requires j < |order| && k < |order| - 1
    ensures var g := order[..j] + order[j + 1..];
            |g| == |order| - 1 && g[k] == if k < j then order[k] else order[k + 1]
  {
  }

  // The link of node k behind the merge: before, at and after the joined node.
  lemma MergeBefore(h: Heap, j: nat, k: nat)
    requires Linked(h.mem, h.order) && j + 1 < |h.order| && k < j && h.order[k] != h.order[j]
    ensures var g := Merge(h, j); k + 1 < |g.order| && g.order[k] in g.mem && g.mem[g.order[k]].ptr == g.order[k + 1]
  {
    NextInMem(h.mem, h.order, k);
    hide Linked;
    WithoutAt(h.order, j + 1, k);
    WithoutAt(h.order, j + 1, k + 1);
  }

  lemma MergeAt(h: Heap, j: nat)
    requires Linked(h.mem, h.order) && j + 1 < |h.order|
    ensures var g := Merge(h, j);
            j < |g.order| && g.order[j] in g.mem && g.mem[g.order[j]].ptr == if j + 1 < |g.order| then g.order[j + 1] else g.order[0]
  {
    NextInMem(h.mem, h.order, j + 1);
    hide Linked;
    WithoutAt(h.order, j + 1, j);
    WithoutAt(h.order, j + 1, if j + 2 < |h.order| then j + 1 else 0);
  }

  lemma MergeAfter(h: Heap, j: nat, k: nat)
    requires Linked(h.mem, h.order) && j < k < |h.order| - 1 && h.order[k + 1] != h.order[j]
    ensures var g := Merge(h, j);
            k < |g.order| && g.order[k] in g.mem && g.mem[g.order[k]].ptr == if k + 1 < |g.order| then g.order[k + 1] else g.order[0]
  {
    NextInMem(h.mem, h.order, k + 1);
    hide Linked;
    WithoutAt(h.order, j + 1, k);
    WithoutAt(h.order, j + 1, if k + 2 < |h.order| then k + 1 else 0);
  }

  lemma MergeLinked(h: Heap, j: nat)
    requires Linked(h.mem, h.order) && j + 1 < |h.order| && Ascending(h.order)
    ensures Linked(Merge(h, j).mem, Merge(h, j).order)
  {
    var g := Merge(h, j);
    forall k | 0 <= k < |g.order|
      ensures g.order[k] in g.mem
      ensures g.mem[g.order[k]].ptr == if k + 1 < |g.order| then g.order[k + 1] else g.order[0]
    {
      if k < j {
        MergeBefore(h, j, k);
      } else if k == j {
        MergeAt(h, j);
      } else {
        MergeAfter(h, j, k);
      }
    }
  }

  lemma UnlinkLinked(h: Heap, j: nat)
    requires Linked(h.mem, h.order) && 1 <= j < |h.order| && Ascending(h.order)
    ensures Linked(Unlink(h, j).mem, Unlink(h, j).order)
  {
    var g := Unlink(h, j);
    forall k | 0 <= k < |g.order|
      ensures g.order[k] in g.mem
      ensures g.mem[g.order[k]].ptr == if k + 1 < |g.order| then g.order[k + 1] else g.order[0]
    {
      WithoutAt(h.order, j, k);
      WithoutAt(h.order, j, if k + 1 < |g.order| then k + 1 else 0);
      NextInMem(h.mem, h.order, if k < j then k else k + 1);
      NextInMem(h.mem, h.order, j);
    }
  }

  // Each of them keeps the heap in order.

  lemma InsertTiled(h: Heap, base: nat, i: nat, bp: nat)
    requires Loose(h, base) && bp in h.live && i < |h.order|
    ensures Tiled(Insert(h, i, bp), base)
  {
    var g := Insert(h, i, bp);
    assert Head(h, base, bp);
    assert forall a :: a in g.order <==> a in h.order || a == bp;
    forall a | Head(g, base, a)
      ensures base < a && Block(g, a)
    {
      assert Head(h, base, a) && Block(h, a);
    }
    forall u | u in g.own
      ensures Owned(g, base, u)
    {
      assert Owned(h, base, u) && Head(h, base, h.own[u]);
    }
  }

  lemma InsertCycle(h: Heap, base: nat, i: nat, bp: nat)
    requires Loose(h, base) && bp in h.live && Gap(h.order, i, bp)
    ensures Cycle(Insert(h, i, bp), base)
  {
    assert Head(h, base, bp);
    InsertLinked(h, i, bp);
    InsertAscending(h.order, i, bp);
  }

  lemma InsertAscending(order: seq<nat>, i: nat, bp: nat)
    requires Ascending(order) && Gap(order, i, bp)
    ensures Ascending(order[..i + 1] + [bp] + order[i + 1..])
  {
    var g := order[..i + 1] + [bp] + order[i + 1..];
    assert forall k :: 0 <= k <= i ==> g[k] == order[k];
    assert forall k :: i + 1 < k < |g| ==> g[k] == order[k - 1];
  }

  lemma MergeBlock(h: Heap, base: nat, j: nat, c: nat)
    requires Loose(h, base) && 1 <= j && j + 1 < |h.order| && End(h.mem, h.order[j]) == h.order[j + 1]
    requires Head(Merge(h, j), base, c)
    ensures base < c && Block(Merge(h, j), c)
  {
    var a, b, g := h.order[j], h.order[j + 1], Merge(h, j);
    assert Head(h, base, a) && Head(h, base, b) && Block(h, a) && Block(h, b);
    RemoveAt(h.order, j + 1);
    assert Head(h, base, c) && Block(h, c);
    forall u | c <= u < End(g.mem, c)
      ensures u in g.own && g.own[u] == c
    {
      assert u in h.own && h.own[u] == if c == a && u >= b then b else c;
    }
  }

  lemma MergeOwned(h: Heap, base: nat, j: nat, u: nat)
    requires Loose(h, base) && 1 <= j && j + 1 < |h.order| && End(h.mem, h.order[j]) == h.order[j + 1]
    requires u in h.own
    ensures Owned(Merge(h, j), base, u)
  {
    var a, b := h.order[j], h.order[j + 1];
    assert Head(h, base, a) && Head(h, base, b);
    assert Owned(h, base, u);
    RemoveAt(h.order, j + 1);
  }

  lemma MergeTiled(h: Heap, base: nat, j: nat)
    requires Loose(h, base) && 1 <= j && j + 1 < |h.order| && End(h.mem, h.order[j]) == h.order[j + 1]
    ensures Tiled(Merge(h, j), base)
  {
    var g := Merge(h, j);
    forall c: nat | Head(g, base, c)
      ensures base < c && Block(g, c)
    {
      MergeBlock(h, base, j, c);
    }
    forall u | u in g.own
      ensures Owned(g, base, u)
    {
      MergeOwned(h, base, j, u);
    }
    RemoveAt(h.order, j + 1);
  }

  lemma RemoveAt(order: seq<nat>, j: nat)
    requires Ascending(order) && j < |order|
    ensures var r := order[..j] + order[j + 1..];
            && Ascending(r) && (forall a :: a in r <==> a in order && a != order[j])
  {
    var r := order[..j] + order[j + 1..];
    assert forall k :: 0 <= k < |r| ==> r[k] == if k < j then order[k] else order[k + 1];
    forall a | a in order && a != order[j]
      ensures a in r
    {
      var k :| 0 <= k < |order| && order[k] == a;
      assert r[if k < j then k else k - 1] == a;
    }
  }

  lemma MergeCycle(h: Heap, base: nat, j: nat)
    requires Cycle(h, base) && 1 <= j && j + 1 < |h.order|
    ensures Cycle(Merge(h, j), base)
  {
    MergeLinked(h, j);
    RemoveAt(h.order, j + 1);
  }

  lemma UnlinkTiled(h: Heap, base: nat, j: nat)
    requires Loose(h, base) && 1 <= j < |h.order|
    ensures Tiled(Unlink(h, j), base)
  {
    var g := Unlink(h, j);
    assert Head(h, base, h.order[j]);
    RemoveAt(h.order, j);
    forall a | Head(g, base, a)
      ensures base < a && Block(g, a)
    {
      assert Head(h, base, a) && Block(h, a);
    }
    forall u | u in g.own
      ensures Owned(g, base, u)
    {
      assert Owned(h, base, u) && Head(h, base, h.own[u]);
    }
  }

  lemma UnlinkCycle(h: Heap, base: nat, j: nat)
    requires Cycle(h, base) && 1 <= j < |h.order|
    ensures Cycle(Unlink(h, j), base)
  {
    UnlinkLinked(h, j);
    RemoveAt(h.order, j);
  }

  /** The part that Split hands out is a new block. */
  lemma SplitNew(h: Heap, base: nat, j: nat, n: nat)
    requires Loose(h, base) && 1 <= j < |h.order| && 1 <= n < h.mem[h.order[j]].size
    ensures var q := End(h.mem, h.order[j]) - n;
            q in h.mem && q !in h.order && q !in h.live && base < q && q in h.own && h.own[q] == h.order[j]
  {
    var p := h.order[j];
    var q := End(h.mem, p) - n;
    assert Head(h, base, p) && Block(h, p);
    assert Owned(h, base, q);
    assert Head(h, base, q) ==> Block(h, q);
  }

  lemma SplitBlock(h: Heap, base: nat, j: nat, n: nat, a: nat)
    requires Loose(h, base) && 1 <= j < |h.order| && 1 <= n < h.mem[h.order[j]].size
    requires End(h.mem, h.order[j]) - n in h.mem && Head(Split(h, j, n), base, a)
    ensures base < a && Block(Split(h, j, n), a)
  {
    SplitNew(h, base, j, n);
    var p, g := h.order[j], Split(h, j, n);
    var q := End(h.mem, p) - n;
    assert Head(h, base, p) && Block(h, p);
    assert a != q ==> Head(h, base, a) && Block(h, a);
    forall u | a <= u < End(g.mem, a)
      ensures u in g.own && g.own[u] == a
    {
      assert u in h.own && h.own[u] == if a == q then p else a;
    }
  }

  lemma SplitOwned(h: Heap, base: nat, j: nat, n: nat, u: nat)
    requires Loose(h, base) && 1 <= j < |h.order| && 1 <= n < h.mem[h.order[j]].size
    requires End(h.mem, h.order[j]) - n in h.mem && u in h.own
    ensures Owned(Split(h, j, n), base, u)
  {
    SplitNew(h, base, j, n);
    assert Head(h, base, h.order[j]) && Block(h, h.order[j]);
    assert Owned(h, base, u);
  }

  lemma SplitTiled(h: Heap, base: nat, j: nat, n: nat)
    requires Loose(h, base) && 1 <= j < |h.order| && 1 <= n < h.mem[h.order[j]].size
    requires End(h.mem, h.order[j]) - n in h.mem
    ensures Tiled(Split(h, j, n), base)
  {
    SplitNew(h, base, j, n);
    var g := Split(h, j, n);
    forall a: nat | Head(g, base, a)
      ensures base < a && Block(g, a)
    {
      SplitBlock(h, base, j, n, a);
    }
    forall u | u in g.own
      ensures Owned(g, base, u)
    {
      SplitOwned(h, base, j, n, u);
    }
  }

  lemma SplitCycle(h: Heap, base: nat, j: nat, n: nat)
    requires Loose(h, base) && 1 <= j < |h.order| && 1 <= n < h.mem[h.order[j]].size
    requires End(h.mem, h.order[j]) - n in h.mem && End(h.mem, h.order[j]) - n !in h.order
    ensures Cycle(Split(h, j, n), base)
  {
    var g := Split(h, j, n);
    assert forall k :: 0 <= k < |h.order| ==> g.mem[h.order[k]].ptr == h.mem[h.order[k]].ptr;
  }

  /** Blocks and list nodes lie below memory that is yet to come. */
  lemma Below(h: Heap, base: nat, p: nat, a: nat)
    requires Loose(h, base) && base < p && (forall u :: u in h.own ==> u < p)
    requires Head(h, base, a) || a in h.order
    ensures a < p && (Head(h, base, a) ==> End(h.mem, a) <= p)
  {
    if Head(h, base, a) {
      assert Block(h, a);
      var last: nat := End(h.mem, a) - 1;
      assert last in h.own;
    }
  }

  lemma GrowBlock(h: Heap, base: nat, p: nat, n: nat, a: nat)
    requires Loose(h, base) && base < p && n >= 1 && (forall u :: u in h.own ==> u < p)
    requires Head(Grow(h, p, n), base, a)
    ensures base < a && Block(Grow(h, p, n), a)
  {
    if a == p {
      assert forall u: nat :: p <= u < p + n ==> Within(u, p, n);
    } else {
      assert Head(h, base, a) && Block(h, a);
      Below(h, base, p, a);
    }
  }

  lemma GrowCycle(h: Heap, base: nat, p: nat, n: nat)
    requires Loose(h, base) && base < p && n >= 1 && (forall u :: u in h.own ==> u < p)
    ensures Cycle(Grow(h, p, n), base) && p !in h.order
  {
    var g := Grow(h, p, n);
    forall k | 0 <= k < |h.order|
      ensures h.order[k] < p && g.mem[h.order[k]] == h.mem[h.order[k]]
    {
      Below(h, base, p, h.order[k]);
    }
  }

  lemma GrowLoose(h: Heap, base: nat, p: nat, n: nat)
    requires Loose(h, base) && base < p && n >= 1 && (forall u :: u in h.own ==> u < p)
    ensures Loose(Grow(h, p, n), base)
  {
    var g := Grow(h, p, n);
    GrowCycle(h, base, p, n);
    forall a: nat | Head(g, base, a)
      ensures base < a && Block(g, a)
    {
      GrowBlock(h, base, p, n, a);
    }
    forall u | u in g.own
      ensures Owned(g, base, u)
    {
      if u < p {
        assert Owned(h, base, u) && Head(h, base, h.own[u]);
        Below(h, base, p, h.own[u]);
      }
    }
    forall a | a in h.live
      ensures a < p
    {
      assert Head(h, base, a);
      Below(h, base, p, a);
    }
  }

  // Distances on the free list.

  lemma GapRoom(h: Heap, base: nat, i: nat, bp: nat)
    requires Loose(h, base) && bp in h.live && Gap(h.order, i, bp)
    ensures End(h.mem, h.order[i]) <= bp
    ensures i + 1 < |h.order| ==> End(h.mem, bp) <= h.order[i + 1]
  {
    assert Head(h, base, bp) && Block(h, bp);
    if h.order[i] != base {
      assert Head(h, base, h.order[i]) && Block(h, h.order[i]);
      assert bp in h.own;
    }
    if i + 1 < |h.order| {
      assert Head(h, base, h.order[i + 1]) && Block(h, h.order[i + 1]);
      assert h.order[i + 1] in h.own;
    }
  }

  lemma InsertLoose(h: Heap, base: nat, i: nat, bp: nat)
    requires Loose(h, base) && bp in h.live && Gap(h.order, i, bp)
    ensures Loose(Insert(h, i, bp), base)
  {
    InsertTiled(h, base, i, bp);
    InsertCycle(h, base, i, bp);
  }

  lemma InsertApart(h: Heap, i: nat, bp: nat)
    requires Linked(h.mem, h.order) && Ascending(h.order) && i < |h.order| && bp in h.mem && bp !in h.order
    requires forall k :: 0 <= k < |h.order| - 1 ==> Apart(h, k)
    ensures var g := Insert(h, i, bp);
            && |g.order| == |h.order| + 1 && g.order[i] == h.order[i] && g.order[i + 1] == bp
            && (i + 2 < |g.order| ==> g.order[i + 2] == h.order[i + 1])
            && (forall k :: 0 <= k < |g.order| - 1 && k != i && k != i + 1 ==> Apart(g, k))
  {
    var g := Insert(h, i, bp);
    assert forall k :: 0 <= k <= i ==> g.order[k] == h.order[k];
    assert forall k :: i + 1 < k < |g.order| ==> g.order[k] == h.order[k - 1];
    forall k | 0 <= k < |g.order| - 1 && k != i && k != i + 1
      ensures Apart(g, k)
    {
      assert Apart(h, if k < i then k else k - 1);
    }
  }

  lemma MergeLoose(h: Heap, base: nat, j: nat)
    requires Loose(h, base) && 1 <= j && j + 1 < |h.order| && End(h.mem, h.order[j]) == h.order[j + 1]
    ensures Loose(Merge(h, j), base)
  {
    MergeTiled(h, base, j);
    MergeCycle(h, base, j);
  }

  lemma MergeApartAt(h: Heap, j: nat, k: nat)
    requires j + 1 < |h.order| && k < |h.order| - 2 && h.order[j] in h.mem && h.order[j + 1] in h.mem
    requires k != j ==> h.order[if k < j then k else k + 1] != h.order[j]
    requires End(h.mem, h.order[j]) == h.order[j + 1] && Apart(h, if k < j then k else k + 1)
    ensures Apart(Merge(h, j), k)
  {
    WithoutAt(h.order, j + 1, k);
    WithoutAt(h.order, j + 1, k + 1);
  }

  lemma MergeApart(h: Heap, j: nat, gap: int)
    requires Linked(h.mem, h.order) && Ascending(h.order) && j + 1 < |h.order|
    requires End(h.mem, h.order[j]) == h.order[j + 1]
    requires gap < j && forall k :: 0 <= k < |h.order| - 1 && k != j && k != gap ==> Apart(h, k)
    ensures var g := Merge(h, j);
            && |g.order| == |h.order| - 1
            && (forall k :: 0 <= k <= j ==> g.order[k] == h.order[k])
            && (forall k :: 0 <= k < |g.order| - 1 && k != gap ==> Apart(g, k))
  {
    var g := Merge(h, j);
    forall k | 0 <= k <= j
      ensures g.order[k] == h.order[k]
    {
      WithoutAt(h.order, j + 1, k);
    }
    forall k | 0 <= k < |g.order| - 1 && k != gap
      ensures Apart(g, k)
    {
      MergeApartAt(h, j, k);
    }
  }

  // free(bp) once the search has stopped at order[i]: insert, join right, join left.

  ghost function JoinRight(g: Heap, i: nat): (r: Heap)
    requires Linked(g.mem, g.order) && i < |g.order|
  {
    if i + 1 < |g.order| && End(g.mem, g.order[i]) == g.order[i + 1] then Merge(g, i) else g
  }

  /** Joining block i with its right neighbour if they abut closes one gap on the list. */
  lemma JoinRightTidy(g: Heap, base: nat, i: nat, gap: int)
    requires Loose(g, base) && i < |g.order| && gap < i
    requires forall k :: 0 <= k < |g.order| - 1 && k != i && k != gap ==> Apart(g, k)
    requires i + 1 < |g.order| ==> End(g.mem, g.order[i]) <= g.order[i + 1]
    ensures var r := JoinRight(g, i);
            && Loose(r, base) && i < |r.order|
            && (forall k :: 0 <= k <= i ==> r.order[k] == g.order[k])
            && (forall k :: 0 <= k < i ==> r.mem[g.order[k]] == g.mem[g.order[k]])
            && (forall k :: 0 <= k < |r.order| - 1 && k != gap ==> Apart(r, k))
  {
    if i + 1 < |g.order| && End(g.mem, g.order[i]) == g.order[i + 1] {
      assert i >= 1;
      MergeLoose(g, base, i);
      MergeApart(g, i, gap);
    }
  }

  ghost function Freed(h: Heap, i: nat, bp: nat): (g: Heap)
    requires Linked(h.mem, h.order) && Ascending(h.order) && i < |h.order| && bp in h.mem && bp !in h.order
  {
    InsertLinked(h, i, bp);
    var r := JoinRight(Insert(h, i, bp), i + 1);
    if Linked(r.mem, r.order) && i < |r.order| then JoinRight(r, i) else r
  }

  /** A freed block leaves the heap as tidy as it was. */
  lemma FreedTidy(h: Heap, base: nat, i: nat, bp: nat)
    requires Tidy(h, base) && bp in h.live && Gap(h.order, i, bp)
    ensures Tidy(Freed(h, i, bp), base)
    ensures i < |Freed(h, i, bp).order| && Freed(h, i, bp).order[i] == h.order[i]
  {
    InsertLoose(h, base, i, bp);
    InsertApart(h, i, bp);
    GapRoom(h, base, i, bp);
    var g := Insert(h, i, bp);
    JoinRightTidy(g, base, i + 1, i);
    JoinRightTidy(JoinRight(g, i + 1), base, i, -1);
  }

  lemma InsertUntouched(h: Heap, base: nat, i: nat, bp: nat, held: set<nat>)
    requires Loose(h, base) && bp in h.live && i < |h.order| && held <= h.live - {bp}
    ensures Untouched(h, Insert(h, i, bp), held)
  {
    assert Head(h, base, bp) && Block(h, bp);
    assert h.order[i] != base ==> Head(h, base, h.order[i]) && Block(h, h.order[i]);
    forall u | u in h.own && h.own[u] in held
      ensures u in h.mem && u != bp && u != h.order[i]
    {
      assert Owned(h, base, u);
    }
  }

  lemma MergeUntouched(h: Heap, base: nat, j: nat, held: set<nat>)
    requires Loose(h, base) && 1 <= j && j + 1 < |h.order| && held <= h.live
    ensures Untouched(h, Merge(h, j), held)
  {
    assert Head(h, base, h.order[j]) && Head(h, base, h.order[j + 1]);
    forall u | u in h.own && h.own[u] in held
      ensures u in h.mem && u != h.order[j] && !(h.order[j + 1] <= u < End(h.mem, h.order[j + 1]))
    {
      assert Owned(h, base, u);
    }
  }

  lemma JoinRightUntouched(g: Heap, base: nat, i: nat, held: set<nat>)
    requires Loose(g, base) && i < |g.order| && held <= g.live
    ensures var r := JoinRight(g, i); Untouched(g, r, held) && r.live == g.live && r.own.Keys == g.own.Keys
  {
    if i + 1 < |g.order| && End(g.mem, g.order[i]) == g.order[i + 1] {
      MergeUntouched(g, base, i, held);
    } else {
      assert forall u :: u in g.own ==> Owned(g, base, u);
    }
  }

  /** free() writes no unit of a block that stays live, and every unit stays accounted for. */
  lemma FreedUntouched(h: Heap, base: nat, i: nat, bp: nat)
    requires Tidy(h, base) && bp in h.live && Gap(h.order, i, bp)
    ensures var g := Freed(h, i, bp);
            Untouched(h, g, h.live - {bp}) && g.live == h.live - {bp} && g.own.Keys == h.own.Keys
  {
    var held := h.live - {bp};
    var g := Insert(h, i, bp);
    InsertLoose(h, base, i, bp);
    InsertApart(h, i, bp);
    GapRoom(h, base, i, bp);
    InsertUntouched(h, base, i, bp, held);
    JoinRightTidy(g, base, i + 1, i);
    JoinRightUntouched(g, base, i + 1, held);
    JoinRightUntouched(JoinRight(g, i + 1), base, i, held);
  }

  // The stores of free(), in program order: first into bp, then into p.

  function StoreBp(mem: Memory, p: nat, bp: nat): (m: Memory)
    requires p in mem && bp in mem && mem[p].ptr in mem
  {
    var next := mem[p].ptr;
    if bp + mem[bp].size == next
    then mem[bp := Header(mem[next].ptr, mem[bp].size + mem[next].size)]
    else mem[bp := mem[bp].(ptr := next)]
  }

  function StoreP(mem: Memory, p: nat, bp: nat): (m: Memory)
    requires p in mem && bp in mem
  {
    if p + mem[p].size == bp
    then mem[p := Header(mem[bp].ptr, mem[p].size + mem[bp].size)]
    else mem[p := mem[p].(ptr := bp)]
  }

  lemma StoreTwice(m: Memory, a: nat, b: nat, x: Header, y: Header, z: Header)
    requires a != b
    ensures m[a := x][b := y][a := z] == m[a := z][b := y]
    ensures m[a := x][a := z] == m[a := z]
  {
  }

  lemma NextInMem(mem: Memory, order: seq<nat>, i: nat)
    requires Linked(mem, order) && i < |order|
    ensures mem[order[i]].ptr == Next(order, i) && Next(order, i) in mem
  {
  }

  // What free() finds around the gap between p and next.
  lemma AroundGap(h: Heap, base: nat, i: nat, bp: nat)
    requires Tidy(h, base) && bp in h.live && Gap(h.order, i, bp)
    ensures var p, next := h.order[i], Next(h.order, i);
            && p in h.mem && bp in h.mem && next in h.mem && h.mem[p].ptr == next && p != bp
            && (i + 1 < |h.order| ==> next == h.order[i + 1] && next != p && next != bp)
            && (i + 1 == |h.order| ==> next < bp)
  {
    NextInMem(h.mem, h.order, i);
    assert Head(h, base, bp);
  }

  lemma InsertedAt(h: Heap, base: nat, i: nat, bp: nat)
    requires Tidy(h, base) && bp in h.live && Gap(h.order, i, bp)
    ensures h.order[i] in h.mem && bp in h.mem
    ensures var g := Insert(h, i, bp);
            && Linked(g.mem, g.order) && |g.order| == |h.order| + 1 && g.order[i + 1] == bp
            && (i + 2 < |g.order| ==> g.order[i + 2] == h.order[i + 1])
  {
    assert Head(h, base, bp);
    InsertLinked(h, i, bp);
    InsertApart(h, i, bp);
  }

  lemma RightStores(h: Heap, base: nat, i: nat, bp: nat)
    requires Tidy(h, base) && bp in h.live && Gap(h.order, i, bp)
    ensures var p := h.order[i];
            var g := Insert(h, i, bp);
            && h.mem[p].ptr in h.mem && Linked(g.mem, g.order) && i + 1 < |g.order|
            && var m := StoreBp(h.mem, p, bp);
            && JoinRight(g, i + 1).mem == m[p := Header(bp, h.mem[p].size)] && m[p] == h.mem[p]
  {
    var p, next := h.order[i], Next(h.order, i);
    AroundGap(h, base, i, bp);
    InsertedAt(h, base, i, bp);
    hide Tidy, Gap, Linked, Next;
    if bp + h.mem[bp].size == next {
      StoreTwice(h.mem, bp, p, h.mem[bp].(ptr := next), Header(bp, h.mem[p].size),
                 Header(h.mem[next].ptr, h.mem[bp].size + h.mem[next].size));
    }
  }

  lemma FreedStores(h: Heap, base: nat, i: nat, bp: nat)
    requires Tidy(h, base) && bp in h.live && Gap(h.order, i, bp)
    ensures h.mem[h.order[i]].ptr in h.mem
    ensures Freed(h, i, bp).mem == StoreP(StoreBp(h.mem, h.order[i], bp), h.order[i], bp)
  {
    var p := h.order[i];
    RightStores(h, base, i, bp);
    var m := StoreBp(h.mem, p, bp);
    var r := JoinRight(Insert(h, i, bp), i + 1);
    JoinedAt(h, base, i, bp);
    GapApart(h, base, i, bp);
    hide Tidy, Gap, Insert, Linked, StoreBp, Freed;
    JoinStores(r, m, p, bp, i);
  }

  lemma GapApart(h: Heap, base: nat, i: nat, bp: nat)
    requires Tidy(h, base) && bp in h.live && Gap(h.order, i, bp)
    ensures h.order[i] != bp && bp in h.mem
  {
    assert Head(h, base, bp);
  }

  // Joining p and the freed block writes into p what free() writes last.
  lemma JoinStores(r: Heap, m: Memory, p: nat, bp: nat, i: nat)
    requires Linked(r.mem, r.order) && i + 1 < |r.order| && r.order[i] == p && r.order[i + 1] == bp && p != bp
    requires p in m && bp in m && r.mem == m[p := Header(bp, m[p].size)]
    ensures JoinRight(r, i).mem == StoreP(m, p, bp)
  {
    hide Linked;
    StoreTwice(m, p, bp, Header(bp, m[p].size), m[bp], Header(m[bp].ptr, m[p].size + m[bp].size));
  }

  lemma JoinedAt(h: Heap, base: nat, i: nat, bp: nat)
    requires Tidy(h, base) && bp in h.live && Gap(h.order, i, bp)
    ensures var g := Insert(h, i, bp);
            && Linked(g.mem, g.order) && i + 1 < |g.order|
            && var r := JoinRight(g, i + 1);
            && Linked(r.mem, r.order) && i + 1 < |r.order| && r.order[i] == h.order[i] && r.order[i + 1] == bp
            && Freed(h, i, bp) == JoinRight(r, i)
  {
    InsertLoose(h, base, i, bp);
    InsertApart(h, i, bp);
    GapRoom(h, base, i, bp);
    JoinRightTidy(Insert(h, i, bp), base, i + 1, i);
  }

  /** Some free block is at least as large as the one just freed. */
  lemma FreedLarge(h: Heap, base: nat, i: nat, bp: nat) returns (k: nat)
    requires Tidy(h, base) && bp in h.live && Gap(h.order, i, bp)
    ensures var g := Freed(h, i, bp); k < |g.order| && g.order[k] in g.mem && g.mem[g.order[k]].size >= h.mem[bp].size
  {
    JoinedAt(h, base, i, bp);
    var r := JoinRight(Insert(h, i, bp), i + 1);
    RightStores(h, base, i, bp);
    assert r.mem[bp].size >= h.mem[bp].size;
    if End(r.mem, r.order[i]) == r.order[i + 1] {
      WithoutAt(r.order, i + 1, i);
      k := i;
    } else {
      k := i + 1;
    }
  }

  /** The free list entered at freep. */
  lemma RingAt(mem: Memory, order: seq<nat>, freep: nat) returns (ring: seq<nat>)
    requires Linked(mem, order) && freep in order
    ensures Linked(mem, ring) && ring[0] == freep && forall a :: a in ring <==> a in order
  {
    var f :| 0 <= f < |order| && order[f] == freep;
    RotateLinked(mem, order, f);
    RotateMembers(order, f);
    RotateAt(order, f, 0);
    ring := Rotate(order, f);
  }

  /** The loop of free() stops, and only at the gap for bp. */
  lemma SearchStops(mem: Memory, order: seq<nat>, ring: seq<nat>, bp: nat) returns (k: nat)
    requires Linked(mem, order) && Ascending(order) && order[0] < bp && bp !in order
    requires forall a :: a in ring <==> a in order
    ensures k < |ring| && ring[k] in mem && Stops(ring[k], mem[ring[k]].ptr, bp)
  {
    var i := GapExists(order, bp);
    StopsAtGap(order, i, bp);
    NextInMem(mem, order, i);
    assert order[i] in ring;
    k :| 0 <= k < |ring| && ring[k] == order[i];
  }

  lemma StoppedAtGap(mem: Memory, order: seq<nat>, p: nat, bp: nat) returns (i: nat)
    requires Linked(mem, order) && Ascending(order) && order[0] < bp && bp !in order
    requires p in order && Stops(p, mem[p].ptr, bp)
    ensures Gap(order, i, bp) && order[i] == p
  {
    i :| 0 <= i < |order| && order[i] == p;
    NextInMem(mem, order, i);
    StopsAtGap(order, i, bp);
  }

  lemma UnlinkTidy(h: Heap, base: nat, j: nat)
    requires Tidy(h, base) && 1 <= j < |h.order|
    ensures Tidy(Unlink(h, j), base)
  {
    UnlinkTiled(h, base, j);
    UnlinkCycle(h, base, j);
    UnlinkApart(h, j);
  }

  lemma UnlinkApart(h: Heap, j: nat)
    requires Linked(h.mem, h.order) && Ascending(h.order) && 1 <= j < |h.order|
    requires forall k :: 0 <= k < |h.order| - 1 ==> Apart(h, k)
    ensures var g := Unlink(h, j); forall k :: 0 <= k < |g.order| - 1 ==> Apart(g, k)
  {
    var g := Unlink(h, j);
    assert forall k :: 0 <= k < |g.order| ==> g.order[k] == if k < j then h.order[k] else h.order[k + 1];
    forall k | 0 <= k < |g.order| - 1
      ensures Apart(g, k)
    {
      assert Apart(h, if k < j then k else k + 1);
    }
  }

  lemma UnlinkUntouched(h: Heap, base: nat, j: nat)
    requires Loose(h, base) && 1 <= j < |h.order|
    ensures Untouched(h, Unlink(h, j), h.live)
  {
    assert h.order[j - 1] != base ==> Head(h, base, h.order[j - 1]) && Block(h, h.order[j - 1]);
    forall u | u in h.own && h.own[u] in h.live
      ensures u in h.mem && u != h.order[j - 1]
    {
      assert Owned(h, base, u);
    }
  }

  lemma SplitTidy(h: Heap, base: nat, j: nat, n: nat)
    requires Tidy(h, base) && 1 <= j < |h.order| && 1 <= n < h.mem[h.order[j]].size
    ensures End(h.mem, h.order[j]) - n in h.mem
    ensures Tidy(Split(h, j, n), base)
  {
    SplitNew(h, base, j, n);
    var g := Split(h, j, n);
    SplitTiled(h, base, j, n);
    SplitCycle(h, base, j, n);
    forall k | 0 <= k < |g.order| - 1
      ensures Apart(g, k)
    {
      assert Apart(h, k);
    }
  }

  lemma SplitUntouched(h: Heap, base: nat, j: nat, n: nat)
    requires Loose(h, base) && 1 <= j < |h.order| && 1 <= n < h.mem[h.order[j]].size
    requires End(h.mem, h.order[j]) - n in h.mem
    ensures Untouched(h, Split(h, j, n), h.live)
  {
    var p := h.order[j];
    var q := End(h.mem, p) - n;
    var g := Split(h, j, n);
    assert Head(h, base, p) && Block(h, p);
    forall u | u in h.own && h.own[u] in h.live
      ensures u in g.own && g.own[u] == h.own[u] && u in h.mem && u in g.mem && g.mem[u] == h.mem[u]
    {
      assert Owned(h, base, u);
      assert !(p <= u < End(h.mem, p));
    }
  }

  lemma SplitAll(h: Heap, base: nat, j: nat, n: nat)
    requires Tidy(h, base) && 1 <= j < |h.order| && 1 <= n < h.mem[h.order[j]].size
    ensures var q := End(h.mem, h.order[j]) - n;
            && q in h.mem && q !in h.live && q > h.order[j]
            && var g := Split(h, j, n);
            && Tidy(g, base) && g.order == h.order && g.live == h.live + {q} && g.own.Keys == h.own.Keys
            && g.mem[q].size == n && Untouched(h, g, h.live)
  {
    assert Loose(h, base) && h.order[j] in h.mem;
    hide Tidy, Loose, Untouched;
    SplitNew(h, base, j, n);
    SplitTidy(h, base, j, n);
    SplitUntouched(h, base, j, n);
  }

  lemma GrowTidy(h: Heap, base: nat, p: nat, n: nat)
    requires Tidy(h, base) && base < p && n >= 1 && (forall u :: u in h.own ==> u < p)
    ensures Tidy(Grow(h, p, n), base) && Untouched(h, Grow(h, p, n), h.live)
  {
    var g := Grow(h, p, n);
    GrowLoose(h, base, p, n);
    forall k | 0 <= k < |g.order| - 1
      ensures Apart(g, k)
    {
      GrowApart(h, base, p, n, k);
    }
    hide Loose, Apart;
    GrowUntouched(h, base, p, n);
  }

  lemma GrowApart(h: Heap, base: nat, p: nat, n: nat, k: nat)
    requires Tidy(h, base) && base < p && n >= 1 && (forall u :: u in h.own ==> u < p) && k < |h.order| - 1
    ensures Apart(Grow(h, p, n), k)
  {
    assert Apart(h, k);
    Below(h, base, p, h.order[k]);
  }

  lemma GrowUntouched(h: Heap, base: nat, p: nat, n: nat)
    requires Loose(h, base) && forall u :: u in h.own ==> u < p
    ensures Untouched(h, Grow(h, p, n), h.live)
  {
    assert forall u :: u in h.own ==> Owned(h, base, u);
  }

  /** nunits of malloc, in 32-bit unsigned arithmetic. */
  function Units(nbytes: nat): (n: nat)
    ensures 1 <= n
  {
    (nbytes + HEADER - 1) % UINT_LIMIT / HEADER + 1
  }

  /** The units hold nbytes behind their header exactly when the sum does not wrap. */
  lemma UnitsSuffice(nbytes: nat)
    requires nbytes < UINT_LIMIT
    ensures (Units(nbytes) - 1) * HEADER >= nbytes <==> nbytes <= UINT_LIMIT - HEADER
    ensures Units(nbytes) <= UINT_LIMIT / HEADER
  {
    if nbytes > UINT_LIMIT - HEADER {
      assert (nbytes + HEADER - 1) % UINT_LIMIT == nbytes + HEADER - 1 - UINT_LIMIT;
    } else {
      assert (nbytes + HEADER - 1) % UINT_LIMIT == nbytes + HEADER - 1;
    }
  }

  /** The units morecore() asks for. */
  function Ask(nunits: nat): (nu: nat) {
    if nunits < 4096 then 4096 else nunits
  }

  /** The argument sbrk() gets: nu * sizeof(Header), a 32-bit product read as an int. */
  function SbrkArg(nu: nat): (n: int) {
    var a := nu * HEADER % UINT_LIMIT;
    if a < INT_LIMIT then a else a - UINT_LIMIT
  }

  /** sbrk() is asked for memory exactly when the units asked for take less than 2 GB. */
  lemma SbrkPositive(nunits: nat)
    requires 1 <= nunits <= UINT_LIMIT / HEADER
    ensures SbrkArg(Ask(nunits)) > 0 <==> nunits * HEADER < INT_LIMIT
    ensures SbrkArg(Ask(nunits)) > 0 ==> SbrkArg(Ask(nunits)) == Ask(nunits) * HEADER
  {
  }

  /** The node before order[m] is the only one that points to it. */
  lemma OnlyPredecessor(mem: Memory, order: seq<nat>, prev: nat, m: nat)
    requires Linked(mem, order) && Ascending(order) && 1 <= m < |order|
    requires prev in order && mem[prev].ptr == order[m]
    ensures prev == order[m - 1]
  {
    var x :| 0 <= x < |order| && order[x] == prev;
    NextInMem(mem, order, x);
  }

  /** The free list holds a block of at least n units. */
  ghost predicate HasFree(h: Heap, n: nat) {
    exists k :: 0 <= k < |h.order| && h.order[k] in h.mem && h.mem[h.order[k]].size >= n
  }

  /** All that free() does, given where its search ended. */
  lemma FreedAll(h: Heap, base: nat, i: nat, bp: nat)
    requires Tidy(h, base) && bp in h.live && Gap(h.order, i, bp)
    ensures var g := Freed(h, i, bp);
            && h.mem[h.order[i]].ptr in h.mem
            && g.mem == StoreP(StoreBp(h.mem, h.order[i], bp), h.order[i], bp)
            && Tidy(g, base) && h.order[i] in g.order
            && g.live == h.live - {bp} && g.own.Keys == h.own.Keys && Untouched(h, g, g.live)
            && HasFree(g, h.mem[bp].size)
  {
    FreedStores(h, base, i, bp);
    FreedTidy(h, base, i, bp);
    FreedUntouched(h, base, i, bp);
    var k := FreedLarge(h, base, i, bp);
  }

  lemma GrowAll(h: Heap, base: nat, p: nat, n: nat)
    requires Tidy(h, base) && base < p && n >= 1 && (forall u :: u in h.own ==> u < p)
    ensures var g := Grow(h, p, n);
            && Tidy(g, base) && Untouched(h, g, h.live) && p !in h.live && g.mem[p].size == n
            && (forall u :: u in g.own ==> u < p + n) && h.own.Keys <= g.own.Keys
  {
    GrowTidy(h, base, p, n);
    assert Within(p, p, n);
    if p in h.live {
      assert Head(h, base, p);
      Below(h, base, p, p);
    }
  }

  lemma UntouchedSelf(h: Heap, base: nat)
    requires Loose(h, base)
    ensures Untouched(h, h, h.live)
  {
    assert forall u :: u in h.own ==> Owned(h, base, u);
  }

  lemma UntouchedTrans(f: Heap, g: Heap, h: Heap, held: set<nat>)
    requires Untouched(f, g, held) && Untouched(g, h, held)
    ensures Untouched(f, h, held)
  {
  }

  /** ring is the free list entered behind freep, so freep comes last. */
  ghost predicate Entered(mem: Memory, order: seq<nat>, ring: seq<nat>, freep: nat) {
    && Linked(mem, ring) && (forall a :: a in ring <==> a in order) && ring[|ring| - 1] == freep
    && forall i, k :: 0 <= i < k < |ring| ==> ring[i] != ring[k]
  }

  lemma RingFrom(mem: Memory, order: seq<nat>, freep: nat) returns (ring: seq<nat>)
    requires Linked(mem, order) && Ascending(order) && freep in order
    ensures Entered(mem, order, ring, freep)
  {
    var f :| 0 <= f < |order| && order[f] == freep;
    RotateLinked(mem, order, f + 1);
    RotateMembers(order, f + 1);
    RotateDistinct(order, f + 1);
    ring := Rotate(order, f + 1);
  }

  lemma RotateDistinct(order: seq<nat>, k: nat)
    requires Ascending(order) && k <= |order|
    ensures var ring := Rotate(order, k); forall i, j :: 0 <= i < j < |ring| ==> ring[i] != ring[j]
  {
    var ring, n := Rotate(order, k), |order| - k;
    assert forall i :: 0 <= i < n ==> ring[i] == order[k + i];
    assert forall i :: n <= i < |ring| ==> ring[i] == order[i - n];
  }

  /** Where the search stands, on the address-ordered list. */
  lemma Predecessor(mem: Memory, order: seq<nat>, ring: seq<nat>, freep: nat, base: nat, j: nat) returns (m: nat)
    requires Linked(mem, order) && Ascending(order) && order[0] == base && mem[base].size == 0
    requires Entered(mem, order, ring, freep) && j < |ring| && mem[ring[j]].size >= 1
    ensures 1 <= m < |order| && order[m] == ring[j]
    ensures order[m - 1] == if j == 0 then freep else ring[j - 1]
  {
    assert ring[j] in order;
    m :| 0 <= m < |order| && order[m] == ring[j];
    var prev := if j == 0 then freep else ring[j - 1];
    assert prev in ring;
    OnlyPredecessor(mem, order, prev, m);
  }

  /** A search that has come back to freep has seen every free block. */
  lemma AllSmall(mem: Memory, order: seq<nat>, ring: seq<nat>, freep: nat, j: nat, n: nat)
    requires Entered(mem, order, ring, freep) && Linked(mem, order)
    requires j < |ring| && ring[j] == freep
    requires forall k :: 0 <= k <= j ==> mem[ring[k]].size < n
    ensures forall k :: 0 <= k < |order| ==> mem[order[k]].size < n
  {
    forall k | 0 <= k < |order|
      ensures mem[order[k]].size < n
    {
      assert order[k] in ring;
    }
  }

  const NULL: nat := 0

  // What morecore() finds: no memory, an answer without memory, or memory.
  datatype Core = Refused | Nothing | Granted

  // What malloc() gives: Wild is an address of memory that sbrk has not granted.
  datatype Malloced = Null | Wild | Given(p: nat)

  class Allocator {
    const base: nat              // the address of the static header
    var mem: Memory              // the header fields of every unit
    var freep: nat               // start of the free list, NULL before the first malloc
    ghost var heap: Heap         // mem, with the free list and the owners of all units
    ghost var brk: nat           // sbrk has never handed out a unit from here on

    ghost predicate Ready()
      reads this
    {
      && base != NULL && base < brk && freep in heap.order
      && heap.mem == mem && Tidy(heap, base)
      && forall u :: u in heap.own ==> u < brk
    }

    ghost predicate Valid()
      reads this
    {
      if freep == NULL then base != NULL && base < brk && heap.order == [] && heap.live == {} && heap.own == map[]
      else Ready()
    }

    /** A program that has not called malloc() yet.  The static header lies below all memory from sbrk(). */
    constructor (base: nat, brk: nat)
      requires NULL != base < brk
      ensures Valid() && freep == NULL && this.base == base && this.brk == brk
    {
      this.base, this.brk, mem, freep := base, brk, map[], NULL;
      heap := Heap(map[], [], {}, map[]);
    }

    // The search loop of free().
    method FindGap(bp: nat) returns (p: nat, ghost i: nat)
      requires Ready() && bp in heap.live
      ensures Gap(heap.order, i, bp) && p == heap.order[i]
    {
      assert Head(heap, base, bp);
      ghost var ring := RingAt(mem, heap.order, freep);
      ghost var last := SearchStops(mem, heap.order, ring, bp);
      p := freep;
      ghost var j := 0;
      while !Stops(p, mem[p].ptr, bp)
        invariant 0 <= j < |ring| && p == ring[j] && p in mem
        invariant forall k :: 0 <= k < j ==> !Stops(ring[k], mem[ring[k]].ptr, bp)
        decreases |ring| - j
      {
        p := mem[p].ptr;
        j := j + 1;
      }
      i := StoppedAtGap(mem, heap.order, p, bp);
    }

    // The body of free() behind the search.
    method LinkIn(p: nat, bp: nat)
      requires p in mem && bp in mem && mem[p].ptr in mem
      modifies this`mem, this`freep
      ensures mem == StoreP(StoreBp(old(mem), p, bp), p, bp) && freep == p
    {
      var next := mem[p].ptr;
      if bp + mem[bp].size == next {
        mem := mem[bp := Header(mem[next].ptr, mem[bp].size + mem[next].size)];
      } else {
        mem := mem[bp := mem[bp].(ptr := next)];
      }
      if p + mem[p].size == bp {
        mem := mem[p := Header(mem[bp].ptr, mem[p].size + mem[bp].size)];
      } else {
        mem := mem[p := mem[p].(ptr := bp)];
      }
      freep := p;
    }

    /** free(): the block's units join the free list, and no other block notices. */
    method Free(bp: nat)
      requires Ready() && bp in heap.live && bp in mem
      modifies this`mem, this`freep, this`heap
      ensures Ready() && heap.live == old(heap.live) - {bp} && heap.own.Keys == old(heap.own.Keys)
      ensures Untouched(old(heap), heap, heap.live)
      ensures HasFree(heap, old(mem[bp].size))
    {
      ghost var h := heap;
      var p;
      ghost var i;
      p, i := FindGap(bp);
      FreedAll(h, base, i, bp);
      ghost var g := Freed(h, i, bp);
      LinkIn(p, bp);
      heap := g;
    }

    // New memory from sbrk, made one block.
    method Extend(hp: nat, nu: nat)
      requires Ready() && hp >= brk && nu >= 1
      modifies this`mem, this`heap, this`brk
      ensures Ready() && hp !in old(heap.live) && heap.live == old(heap.live) + {hp} && hp in mem && mem[hp].size == nu
      ensures Untouched(old(heap), heap, old(heap.live)) && old(heap.own.Keys) <= heap.own.Keys
    {
      ghost var g := Grow(heap, hp, nu);
      GrowAll(heap, base, hp, nu);
      mem := mem + map u: nat | hp <= u < hp + nu && Within(u, hp, nu) :: Header(0, if u == hp then nu else 0);
      heap, brk := g, hp + nu;
    }

    /**
      morecore(): grant is the address sbrk answers.  Memory it grants lies above all
      memory granted before.  Asked for a number of bytes that is not positive, sbrk
      answers and grants nothing, and the program goes on in memory it does not have.
     */
    method Morecore(nunits: nat, grant: Option<nat>) returns (r: Core)
      requires Ready() && (grant.Some? ==> grant.value >= brk)
      modifies this`mem, this`freep, this`heap, this`brk
      ensures r != Nothing ==> Ready() && heap.live == old(heap.live)
      ensures r == if grant.None? then Refused else if SbrkArg(Ask(nunits)) <= 0 then Nothing else Granted
      ensures r.Refused? ==> heap == old(heap) && freep == old(freep) && brk == old(brk)
      ensures r.Granted? ==> HasFree(heap, nunits) && Untouched(old(heap), heap, heap.live) && old(heap.own.Keys) <= heap.own.Keys
    {
      var nu := Ask(nunits);
      if grant.None? {
        return Refused;
      }
      if SbrkArg(nu) <= 0 {
        return Nothing;
      }
      var hp := grant.value;
      Extend(hp, nu);
      ghost var g := heap;
      Free(hp);
      UntouchedTrans(old(heap), g, heap, heap.live);
      return Granted;
    }

    // malloc() has found heap.order[m], and it is exactly large enough: take all of it.
    method TakeWhole(prevp: nat, p: nat, ghost m: nat)
      requires Ready() && 1 <= m < |heap.order| && heap.order[m] == p && heap.order[m - 1] == prevp && p in mem && prevp in mem
      modifies this`mem, this`freep, this`heap
      ensures Ready() && p !in old(heap.live) && heap.live == old(heap.live) + {p} && heap.own.Keys == old(heap.own.Keys)
      ensures p in mem && mem[p].size == old(mem[p].size) && Untouched(old(heap), heap, old(heap.live))
    {
      ghost var g := Unlink(heap, m);
      UnlinkTidy(heap, base, m);
      UnlinkUntouched(heap, base, m);
      assert g.order[m - 1] == prevp;
      mem := mem[prevp := mem[prevp].(ptr := mem[p].ptr)];
      freep := prevp;
      heap := g;
    }

    // malloc() has found heap.order[m], and it is larger: take the last n units of it.
    method TakeTail(prevp: nat, p: nat, n: nat, ghost m: nat) returns (q: nat)
      requires Ready() && 1 <= m < |heap.order| && heap.order[m] == p && heap.order[m - 1] == prevp && p in mem
      requires 1 <= n < mem[p].size
      modifies this`mem, this`freep, this`heap
      ensures Ready() && q !in old(heap.live) && heap.live == old(heap.live) + {q} && heap.own.Keys == old(heap.own.Keys)
      ensures q in mem && mem[q].size == n && Untouched(old(heap), heap, old(heap.live))
    {
      hide Tidy, Untouched;
      SplitAll(heap, base, m, n);
      ghost var g := Split(heap, m, n);
      q := p + mem[p].size - n;
      mem := mem[p := mem[p].(size := mem[p].size - n)][q := mem[q].(size := n)];
      freep := prevp;
      heap := g;
    }

    method Carve(prevp: nat, p: nat, n: nat, ghost m: nat) returns (q: nat)
      requires Ready() && 1 <= m < |heap.order| && heap.order[m] == p && heap.order[m - 1] == prevp
      requires p in mem && prevp in mem && 1 <= n <= mem[p].size
      modifies this`mem, this`freep, this`heap
      ensures Ready() && q !in old(heap.live) && heap.live == old(heap.live) + {q} && heap.own.Keys == old(heap.own.Keys)
      ensures q in mem && mem[q].size == n && Untouched(old(heap), heap, old(heap.live))
    {
      if mem[p].size == n {
        TakeWhole(prevp, p, m);
        q := p;
      } else {
        q := TakeTail(prevp, p, n, m);
      }
    }

    /**
      malloc(): it answers NULL only when sbrk refuses.  It gives a block that holds
      nbytes exactly if the number of units does not wrap and either the free list
      has a block that large or sbrk is asked for less than 2 GB and grants it.
      Asked for 2 GB or more, sbrk grants nothing and what becomes of the heap is
      not said: the answer is Wild.
     */
    method Malloc(nbytes: nat, grant: Option<nat>) returns (r: Malloced)
      requires Valid() && nbytes < UINT_LIMIT && (grant.Some? ==> grant.value >= brk)
      modifies this`mem, this`freep, this`heap, this`brk
      ensures r != Wild ==> Ready() && Untouched(old(heap), heap, old(heap.live)) && old(heap.own.Keys) <= heap.own.Keys
      ensures r == Null ==> grant.None? && heap.live == old(heap.live)
      ensures r.Given? ==> r.p !in old(heap.live) && heap.live == old(heap.live) + {r.p}
      ensures r.Given? ==> r.p in mem && mem[r.p].size == Units(nbytes)
      ensures r.Wild? <==> !HasFree(old(heap), Units(nbytes)) && grant.Some? && Units(nbytes) * HEADER >= INT_LIMIT
      ensures r.Given? && (mem[r.p].size - 1) * HEADER >= nbytes <==>
                nbytes <= UINT_LIMIT - HEADER
                && (HasFree(old(heap), Units(nbytes)) || (grant.Some? && Units(nbytes) * HEADER < INT_LIMIT))
    {
      var nunits := Units(nbytes);
      UnitsSuffice(nbytes);
      SbrkPositive(nunits);
      hide Units, SbrkArg;
      if freep == NULL {
        mem := mem[base := Header(base, 0)];
        freep := base;
        heap := Heap(mem, [base], {}, map[]);
      }
      r := Search(nunits, grant);
    }

    lemma ReadyRing()
      requires Ready()
      ensures Linked(mem, heap.order) && Ascending(heap.order) && heap.order[0] == base && mem[base].size == 0
      ensures Untouched(heap, heap, heap.live)
    {
      UntouchedSelf(heap, base);
    }

    // The loop of malloc().  It ends: after one call of morecore the list holds
    // a block that is large enough.
    method Search(nunits: nat, grant: Option<nat>) returns (r: Malloced)
      requires Ready() && nunits >= 1 && (grant.Some? ==> grant.value >= brk)
      modifies this`mem, this`freep, this`heap, this`brk
      ensures r != Wild ==> Ready() && Untouched(old(heap), heap, old(heap.live)) && old(heap.own.Keys) <= heap.own.Keys
      ensures r == Null ==> heap.live == old(heap.live)
      ensures r.Given? ==> r.p !in old(heap.live) && heap.live == old(heap.live) + {r.p}
      ensures r.Given? ==> r.p in mem && mem[r.p].size == nunits
      ensures r.Given? <==> HasFree(old(heap), nunits) || (grant.Some? && SbrkArg(Ask(nunits)) > 0)
      ensures r.Wild? ==> grant.Some?
      ensures r == Null ==> grant.None?
    {
      hide Tidy, Untouched, SbrkArg, Ask;
      ReadyRing();
      ghost var h := heap;
      var prevp := freep;
      ghost var ring := RingFrom(mem, heap.order, freep);
      var p := mem[prevp].ptr;
      ghost var j := 0;
      ghost var grown := false;
      while true
        invariant Ready() && h.live == heap.live && Untouched(h, heap, heap.live) && h.own.Keys <= heap.own.Keys
        invariant Entered(mem, heap.order, ring, freep) && j < |ring| && p == ring[j]
        invariant prevp == if j == 0 then freep else ring[j - 1]
        invariant forall k :: 0 <= k < j ==> mem[ring[k]].size < nunits
        invariant grown ==> grant.Some? && SbrkArg(Ask(nunits)) > 0 && HasFree(heap, nunits)
        invariant !grown ==> brk == old(brk) && heap == h
        decreases !grown, |ring| - j
      {
        ghost var g := heap;
        ReadyRing();
        if mem[p].size >= nunits {
          ghost var m := Predecessor(mem, heap.order, ring, freep, base, j);
          var q := Carve(prevp, p, nunits, m);
          UntouchedTrans(h, g, heap, h.live);
          return Given(q);
        }
        if p == freep {
          AllSmall(mem, heap.order, ring, freep, j, nunits);
          assert !grown;
          var core := Morecore(nunits, grant);
          if core == Refused {
            return Null;
          }
          if core == Nothing {
            return Wild;
          }
          UntouchedTrans(h, g, heap, heap.live);
          ReadyRing();
          p := freep;
          ring := RingFrom(mem, heap.order, freep);
          grown, j := true, -1;
        }
        prevp := p;
        p := mem[p].ptr;
        j := j + 1;
      }
    }
  }

  /** malloc() of 2 GB: sbrk gets a negative number, answers, and grants nothing. */
  method TwoGigabytes(base: nat, brk: nat, answer: nat) returns (r: Malloced)
    requires NULL != base < brk <= answer
    ensures r == Wild
  {
    var a := new Allocator(base, brk);
    r := a.Malloc(0x8000_0000, Some(answer));
  }

  /** malloc() of the largest number: the count of units wraps, and the block has no room behind its header. */
  method LargestRequest(base: nat, brk: nat, answer: nat) returns (a: Allocator, r: Malloced)
    requires NULL != base < brk <= answer
    ensures r.Given? && r.p in a.mem && a.mem[r.p].size == 1
  {
    a := new Allocator(base, brk);
    r := a.Malloc(UINT_LIMIT - 1, Some(answer));
  }
}
