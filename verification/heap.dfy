/** The kernel's global allocator: how `alloc` picks one of three allocators for a
    layout and how `dealloc` finds the same one again from the pointer and the layout.

    `Heap` joins the big-block pool, the per-CPU caches over the list heap, and the
    blocks clients hold, each with the allocator that served it. */
module KernelHeaps {
  import opened Common
  import opened Words
  import P = BigPools
  import C = SmallCaches

  const BIG_MIN: nat := 131_072
  const BIG_ALIGN: nat := 4096

  datatype Origin = FromPool | FromClass(c: nat) | FromList

  datatype Block = Block(layout: C.Layout, origin: Origin)

  /** [lo, hi) is the list heap's region. */
  datatype Heap = Heap(pool: P.RunState, caches: C.View, live: map<nat, Block>, lo: nat, hi: nat)

  ghost predicate Owns(base: nat, pages: nat, ptr: nat) {
    base <= ptr < base + pages * P.PAGE_SIZE
  }

  ghost function PageOf(base: nat, ptr: nat): nat {
    if base <= ptr then (ptr - base) / P.PAGE_SIZE else 0
  }

  ghost function Address(base: nat, page: nat): nat {
    base + page * P.PAGE_SIZE
  }

  /** A layout as the language passes it: at least one byte, a power-of-two alignment. */
  ghost predicate LayoutOk(l: C.Layout) {
    0 < l.size && exists k :: l.align == Pow2(k)
  }

  ghost predicate Product(x: nat, q: nat, d: nat) {
    x == q * d
  }

  /** The address is a multiple of the alignment. */
  ghost predicate Aligned(ptr: nat, align: nat) {
    exists q :: Product(ptr, q, align)
  }

  lemma LayoutHasBytes(l: C.Layout)
    requires LayoutOk(l)
    ensures 0 < l.size
  {
  }

  // ---------- the two decisions ----------

  /** `dealloc`: by address first, then by the class of the layout. */
  ghost function Route(h: Heap, ptr: nat, l: C.Layout): Origin {
    if Owns(h.pool.view.base, h.pool.view.pages, ptr) then FromPool
    else match C.ClassOf(l)
      case Some(c) => FromClass(c)
      case None => FromList
  }

  ghost predicate Big(l: C.Layout) {
    l.size >= BIG_MIN && l.align <= BIG_ALIGN
  }

  ghost function PoolTry(h: Heap, l: C.Layout): Option<nat> {
    if Big(l) then P.AllocStep(h.pool.view, P.PagesFor(l.size)).1 else None
  }

  ghost predicate InRegion(h: Heap, p: nat, bytes: nat) {
    h.lo <= p && p + bytes <= h.hi
  }

  /** What the list heap may answer while it serves this request. */
  ghost predicate AnswersOk(h: Heap, cpu: nat, l: C.Layout, answers: seq<Option<nat>>)
    requires C.Shape(h.caches) && cpu < C.PCPU
  {
    && |answers| == C.BATCH
    && match C.ClassOf(l)
       case Some(c) =>
         c < C.NCLASS && C.AnswersOk(h.caches, C.Slot(cpu, c), answers)
         && forall k :: 0 <= k < |answers| && answers[k].Some? ==> InRegion(h, answers[k].value, h.caches.table[c])
       case None =>
         answers[0].Some? ==>
           C.Fresh(h.caches.out, answers[0].value, l.size) && Aligned(answers[0].value, l.align)
           && InRegion(h, answers[0].value, l.size)
  }

  ghost function TakePool(h: Heap, l: C.Layout, i: nat): Heap {
    var need := P.PagesFor(l.size);
    h.(pool := P.RunState(P.Take(h.pool.view, i, need), h.pool.live[i := need]),
       live := h.live[Address(h.pool.view.base, i) := Block(l, FromPool)])
  }

  ghost function Alloc(h: Heap, cpu: nat, l: C.Layout, answers: seq<Option<nat>>): (Heap, Option<nat>)
    requires C.Shape(h.caches) && cpu < C.PCPU && AnswersOk(h, cpu, l, answers)
  {
    match PoolTry(h, l)
    case Some(i) => (TakePool(h, l, i), Some(Address(h.pool.view.base, i)))
    case None =>
      match C.ClassOf(l)
      case Some(c) =>
        var (v, r) := C.AllocStep(h.caches, C.Slot(cpu, c), answers);
        if r.Some? then (h.(caches := v, live := h.live[r.value := Block(l, FromClass(c))]), r)
        else (h.(caches := v), None)
      case None =>
        if answers[0].Some? then
          (h.(caches := C.LargeAlloc(h.caches, answers[0].value, l.size),
              live := h.live[answers[0].value := Block(l, FromList)]), answers[0])
        else (h, None)
  }

  ghost function Dealloc(h: Heap, cpu: nat, ptr: nat, l: C.Layout): Heap
    requires C.Shape(h.caches) && cpu < C.PCPU
  {
    var live := h.live - {ptr};
    match Route(h, ptr, l)
    case FromPool =>
      var first := PageOf(h.pool.view.base, ptr);
      h.(pool := P.RunState(P.FreeStep(h.pool.view, first, P.PagesFor(l.size)), h.pool.live - {first}), live := live)
    case FromClass(c) =>
      if c < C.NCLASS then h.(caches := C.FreeStep(h.caches, C.Slot(cpu, c), ptr), live := live) else h
    case FromList =>
      h.(caches := C.LargeFree(h.caches, ptr), live := live)
  }

  ghost function Install(h: Heap, base: nat, pages: nat): Heap {
    h.(pool := P.Installed(base, pages))
  }

  // ---------- what always holds ----------

  ghost predicate Regions(h: Heap) {
    && (forall p :: p in h.caches.out ==> InRegion(h, p, h.caches.out[p]))
    && h.pool.view.base % P.PAGE_SIZE == 0
    && (h.pool.view.pages > 0 ==>
          h.pool.view.base + h.pool.view.pages * P.PAGE_SIZE <= h.lo || h.hi <= h.pool.view.base)
  }

  /** Pool blocks in the hands of clients are exactly the pool's live runs. */
  ghost predicate PoolBlocks(h: Heap) {
    && (forall p :: p in h.live && h.live[p].origin == FromPool ==>
          var v := h.pool.view;
          Owns(v.base, v.pages, p) && p == Address(v.base, PageOf(v.base, p)) && PageOf(v.base, p) in h.pool.live
          && h.pool.live[PageOf(v.base, p)] == P.PagesFor(h.live[p].layout.size) && Big(h.live[p].layout))
    && (forall i :: i in h.pool.live ==>
          Address(h.pool.view.base, i) in h.live && h.live[Address(h.pool.view.base, i)].origin == FromPool)
  }

  ghost predicate ServedAs(b: Block, a: C.Place) {
    match b.origin
    case FromPool => false
    case FromClass(c) => C.ClassOf(b.layout) == Some(c) && a == C.Small(c)
    case FromList => C.ClassOf(b.layout) == None && a == C.Large(b.layout.size)
  }

  /** All other blocks are exactly the list heap's blocks that are not parked. */
  ghost predicate HeapBlocks(h: Heap) {
    && (forall p :: p in h.live && h.live[p].origin != FromPool ==>
          p in h.caches.place && ServedAs(h.live[p], h.caches.place[p]))
    && (forall p :: p in h.caches.place && !h.caches.place[p].Parked? ==>
          p in h.live && h.live[p].origin != FromPool)
  }

  ghost predicate Layouts(h: Heap) {
    forall p :: p in h.live ==> LayoutOk(h.live[p].layout) && Aligned(p, h.live[p].layout.align)
  }

  ghost predicate Inv(h: Heap) {
    && P.Inv(h.pool)
    && C.Shape(h.caches) && C.Partition(h.caches) && C.Bounded(h.caches)
    && h.caches.table == C.CLASS_SIZES
    && Regions(h) && PoolBlocks(h) && HeapBlocks(h) && Layouts(h)
  }

  // ---------- alignment ----------

  lemma AlignedTrans(x: nat, d: nat, e: nat)
    requires Aligned(x, d) && Aligned(d, e)
    ensures Aligned(x, e)
  {
    var q: nat :| Product(x, q, d);
    var r: nat :| Product(d, r, e);
    TimesTimes(q, r, e);
    assert Product(x, q * r, e);
  }

  lemma TimesTimes(q: nat, r: nat, e: nat)
    ensures q * (r * e) == (q * r) * e && 0 <= q * r
  {
  }

  lemma {:induction false} Pow2Divides(j: nat, k: nat)
    requires Pow2(k) <= Pow2(j)
    ensures Aligned(Pow2(j), Pow2(k))
  {
    if k == 0 {
      assert Product(Pow2(j), Pow2(j), 1);
    } else {
      assert j > 0;
      Pow2Divides(j - 1, k - 1);
      var q: nat :| Product(Pow2(j - 1), q, Pow2(k - 1));
      assert Product(Pow2(j), q, Pow2(k));
    }
  }

  /** A multiple of 2^j is aligned for every power of two up to 2^j. */
  lemma WeakerAlignment(ptr: nat, j: nat, align: nat)
    requires ptr % Pow2(j) == 0 && align <= Pow2(j) && exists k :: align == Pow2(k)
    ensures Aligned(ptr, align)
  {
    var k :| align == Pow2(k);
    assert Product(ptr, ptr / Pow2(j), Pow2(j));
    Pow2Divides(j, k);
    AlignedTrans(ptr, Pow2(j), align);
  }

  /** Blocks of the pool and of the classes are aligned for the layouts they serve. */
  lemma PoolAddressAligned(base: nat, page: nat, l: C.Layout)
    requires base % P.PAGE_SIZE == 0 && LayoutOk(l) && Big(l)
    ensures Aligned(Address(base, page), l.align)
  {
    assert Pow2(12) == 4096;
    assert Address(base, page) % 4096 == 0;
    WeakerAlignment(Address(base, page), 12, l.align);
  }

  lemma ClassBlockAligned(ptr: nat, l: C.Layout)
    requires ptr % C.SMALL_ALIGN == 0 && LayoutOk(l) && C.ClassOf(l).Some?
    ensures Aligned(ptr, l.align)
  {
    assert Pow2(4) == 16;
    WeakerAlignment(ptr, 4, l.align);
  }

  // ---------- every call keeps the invariant ----------

  lemma PageRoundTrip(base: nat, pages: nat, i: nat)
    requires i < pages
    ensures Owns(base, pages, Address(base, i)) && PageOf(base, Address(base, i)) == i
  {
  }

  /** The three allocators never hand out each other's addresses. */
  lemma HeapBlockNotOwned(h: Heap, p: nat)
    requires Inv(h) && p in h.caches.out
    ensures !Owns(h.pool.view.base, h.pool.view.pages, p)
  {
    assert C.HeapOk(h.caches.out);
    assert InRegion(h, p, h.caches.out[p]);
  }

  /** `dealloc` reaches the allocator that served the block. */
  lemma RouteFindsOrigin(h: Heap, p: nat)
    requires Inv(h) && p in h.live
    ensures Route(h, p, h.live[p].layout) == h.live[p].origin
  {
    if h.live[p].origin != FromPool {
      assert p in h.caches.place && C.PlacesOk(h.caches);
      HeapBlockNotOwned(h, p);
    }
  }

  lemma NewPoolBlock(h: Heap, l: C.Layout, i: nat)
    requires Inv(h) && LayoutOk(l) && PoolTry(h, l) == Some(i)
    ensures i < h.pool.view.pages && i !in h.pool.live && Address(h.pool.view.base, i) !in h.live
    ensures P.Inv(P.RunState(P.Take(h.pool.view, i, P.PagesFor(l.size)), h.pool.live[i := P.PagesFor(l.size)]))
  {
    var need := P.PagesFor(l.size);
    P.FoundFits(h.pool.view, need);
    P.FitIsNew(h.pool, i, need);
    P.AllocKeepsInv(h.pool, need);
    PageRoundTrip(h.pool.view.base, h.pool.view.pages, i);
    var ptr := Address(h.pool.view.base, i);
    if ptr in h.live && h.live[ptr].origin != FromPool {
      assert ptr in h.caches.out by { assert C.PlacesOk(h.caches); }
      HeapBlockNotOwned(h, ptr);
    }
  }

  lemma AddPoolBlock(h: Heap, g: Heap, l: C.Layout, i: nat)
    requires PoolBlocks(h) && Big(l) && i < h.pool.view.pages && i !in h.pool.live
    requires var ptr := Address(h.pool.view.base, i);
             g.live == h.live[ptr := Block(l, FromPool)] && ptr !in h.live
    requires g.pool.view.base == h.pool.view.base && g.pool.view.pages == h.pool.view.pages
    requires g.pool.live == h.pool.live[i := P.PagesFor(l.size)]
    ensures PoolBlocks(g)
  {
    hide Owns, Address, PageOf;
    PageRoundTrip(h.pool.view.base, h.pool.view.pages, i);
  }

  lemma AllocFromPool(h: Heap, cpu: nat, l: C.Layout, answers: seq<Option<nat>>)
    requires Inv(h) && cpu < C.PCPU && LayoutOk(l) && AnswersOk(h, cpu, l, answers)
    requires PoolTry(h, l).Some?
    ensures Inv(Alloc(h, cpu, l, answers).0)
  {
    hide P.Inv, C.Partition, C.Shape, Aligned, LayoutOk, Owns, Address, PageOf, PoolBlocks, P.PagesFor;
    var i := PoolTry(h, l).value;
    var g := Alloc(h, cpu, l, answers).0;
    NewPoolBlock(h, l, i);
    PoolAddressAligned(h.pool.view.base, i, l);
    AddPoolBlock(h, g, l, i);
  }

  ghost predicate WithinRegion(out: map<nat, nat>, lo: nat, hi: nat) {
    forall p :: p in out ==> lo <= p && p + out[p] <= hi
  }

  lemma {:induction false} RefillRegion(v: C.View, s: C.Slot, answers: seq<Option<nat>>, lo: nat, hi: nat)
    requires C.Shape(v) && s.Valid() && WithinRegion(v.out, lo, hi)
    requires forall k :: 0 <= k < |answers| && answers[k].Some? ==>
                           lo <= answers[k].value && answers[k].value + v.table[s.class_] <= hi
    ensures WithinRegion(C.Refill(v, s, answers).out, lo, hi)
    decreases |answers|
  {
    if answers != [] && answers[0].Some? {
      var w := C.Grow(v, s, answers[0].value);
      forall k | 0 <= k < |answers[1..]| && answers[1..][k].Some?
        ensures lo <= answers[1..][k].value && answers[1..][k].value + w.table[s.class_] <= hi
      {
        assert answers[1..][k] == answers[k + 1];
      }
      RefillRegion(w, s, answers[1..], lo, hi);
    }
  }

  lemma {:induction false} DropRegion(v: C.View, s: C.Slot, n: nat, lo: nat, hi: nat)
    requires s in v.lists && n <= |v.lists[s]| && WithinRegion(v.out, lo, hi)
    ensures WithinRegion(C.DropMany(v, s, n).out, lo, hi)
    decreases n
  {
    if n > 0 {
      DropRegion(C.Drop(v, s), s, n - 1, lo, hi);
    }
  }

  /** A block no client had is new to the live blocks. */
  lemma NewHeapBlock(h: Heap, p: nat)
    requires Inv(h) && h.lo <= p < h.hi
    requires p in h.caches.place ==> h.caches.place[p].Parked?
    ensures p !in h.live
  {
  }

  /** A list-heap block goes to a client: what the other blocks need. */
  lemma AddHeapBlock(h: Heap, g: Heap, p: nat, b: Block)
    requires PoolBlocks(h) && HeapBlocks(h) && b.origin != FromPool && p !in h.live
    requires g.pool == h.pool && g.live == h.live[p := b]
    requires p in g.caches.place && ServedAs(b, g.caches.place[p])
    requires forall q :: q != p && q in h.caches.place && !h.caches.place[q].Parked? ==>
                           q in g.caches.place && g.caches.place[q] == h.caches.place[q]
    requires forall q :: q != p && q in g.caches.place && !g.caches.place[q].Parked? ==>
                           q in h.caches.place && h.caches.place[q] == g.caches.place[q]
    ensures PoolBlocks(g) && HeapBlocks(g)
  {
    hide PoolBlocks, C.ClassOf;
    OthersKeepPool(h, g, p);
  }

  /** The pool's blocks do not notice a block of the list heap coming or going. */
  lemma OthersKeepPool(h: Heap, g: Heap, p: nat)
    requires PoolBlocks(h) && g.pool == h.pool && (p in h.live ==> h.live[p].origin != FromPool)
    requires g.live - {p} == h.live - {p} && (p in g.live ==> g.live[p].origin != FromPool)
    ensures PoolBlocks(g)
  {
    hide Owns, P.PagesFor;
    assert forall q :: q != p ==> (q in g.live <==> q in g.live - {p}) && (q in h.live <==> q in h.live - {p});
  }

  lemma AllocFromClass(h: Heap, cpu: nat, l: C.Layout, answers: seq<Option<nat>>)
    requires Inv(h) && cpu < C.PCPU && LayoutOk(l) && AnswersOk(h, cpu, l, answers)
    requires PoolTry(h, l).None? && C.ClassOf(l).Some?
    ensures Inv(Alloc(h, cpu, l, answers).0)
  {
    hide P.Inv, C.Partition, Aligned, LayoutOk, Owns, Address, PageOf, P.PagesFor, C.ClassOf, PoolBlocks, HeapBlocks,
         C.AllocStep, C.Refill, C.AnswersOk, C.Hand, PoolTry;
    var c := C.ClassOf(l).value;
    var s := C.Slot(cpu, c);
    var (v, r) := C.AllocStep(h.caches, s, answers);
    C.AllocKeeps(h.caches, s, answers);
    AllocRegion(h, cpu, c, answers);
    if r.Some? {
      var p := r.value;
      var g := Alloc(h, cpu, l, answers).0;
      SmallBlockFacts(v, p);
      NewHeapBlock(h, p);
      ClassBlockAligned(p, l);
      AddHeapBlock(h, g, p, Block(l, FromClass(c)));
    }
  }

  lemma SmallBlockFacts(v: C.View, p: nat)
    requires C.Partition(v) && p in v.place && v.place[p].Small?
    ensures p in v.out && 0 < v.out[p] && p % C.SMALL_ALIGN == 0
  {
  }

  lemma AllocRegion(h: Heap, cpu: nat, c: nat, answers: seq<Option<nat>>)
    requires C.Shape(h.caches) && Regions(h) && cpu < C.PCPU && c < C.NCLASS
    requires forall k :: 0 <= k < |answers| && answers[k].Some? ==> InRegion(h, answers[k].value, h.caches.table[c])
    ensures WithinRegion(C.AllocStep(h.caches, C.Slot(cpu, c), answers).0.out, h.lo, h.hi)
    ensures C.AllocStep(h.caches, C.Slot(cpu, c), answers).0.table == h.caches.table
  {
    RefillRegion(h.caches, C.Slot(cpu, c), answers, h.lo, h.hi);
  }

  lemma AllocFromList(h: Heap, cpu: nat, l: C.Layout, answers: seq<Option<nat>>)
    requires Inv(h) && cpu < C.PCPU && LayoutOk(l) && AnswersOk(h, cpu, l, answers)
    requires PoolTry(h, l).None? && C.ClassOf(l).None?
    ensures Inv(Alloc(h, cpu, l, answers).0)
  {
    hide P.Inv, C.Partition, Aligned, LayoutOk, Owns, Address, PageOf, P.PagesFor, C.ClassOf, PoolBlocks, HeapBlocks,
         C.Fresh, PoolTry;
    if answers[0].Some? {
      var p := answers[0].value;
      var g := Alloc(h, cpu, l, answers).0;
      C.LargeAllocKeeps(h.caches, p, l.size);
      LargeBlockFacts(g.caches, p);
      NewHeapBlock(h, p);
      AddHeapBlock(h, g, p, Block(l, FromList));
    }
  }

  lemma LargeBlockFacts(v: C.View, p: nat)
    requires C.Partition(v) && p in v.place && v.place[p].Large?
    ensures p in v.out && v.out[p] == v.place[p].bytes && 0 < v.out[p]
  {
  }

  // ---------- which allocator serves, and when none does ----------

  ghost predicate FreePage(v: P.PoolView, page: nat) {
    page < v.pages && page !in v.taken
  }

  /** Every page that a block of this layout would touch at page i is one of the pool's, and free. */
  ghost predicate RoomAt(h: Heap, l: C.Layout, i: nat) {
    forall page: nat :: i <= page && (page - i) * 4096 < l.size ==> FreePage(h.pool.view, page)
  }

  lemma RoomIsFit(h: Heap, l: C.Layout, i: nat)
    requires 0 < l.size
    ensures RoomAt(h, l, i) <==> P.Fits(h.pool.view, i, P.PagesFor(l.size))
  {
    hide P.PagesFor, P.Fits, RoomAt;
    if RoomAt(h, l, i) {
      RoomFits(h, l, i);
    }
    if P.Fits(h.pool.view, i, P.PagesFor(l.size)) {
      FitHasRoom(h, l, i);
    }
  }

  lemma RoomFits(h: Heap, l: C.Layout, i: nat)
    requires 0 < l.size && RoomAt(h, l, i)
    ensures P.Fits(h.pool.view, i, P.PagesFor(l.size))
  {
    hide P.PagesFor;
    var need := P.PagesFor(l.size);
    P.PagesHold(l.size, 0);
    P.PagesHold(l.size, need - 1);
    assert FreePage(h.pool.view, i + need - 1);
    forall page | page in P.Run(i, need)
      ensures FreePage(h.pool.view, page)
    {
      P.PagesHold(l.size, page - i);
    }
  }

  lemma FitHasRoom(h: Heap, l: C.Layout, i: nat)
    requires P.Fits(h.pool.view, i, P.PagesFor(l.size))
    ensures RoomAt(h, l, i)
  {
    hide P.PagesFor;
    forall page: nat | i <= page && (page - i) * 4096 < l.size
      ensures FreePage(h.pool.view, page)
    {
      P.PagesHold(l.size, page - i);
      assert page in P.Run(i, P.PagesFor(l.size));
    }
  }

  ghost predicate LowestRoom(h: Heap, l: C.Layout, i: nat) {
    RoomAt(h, l, i) && forall k: nat :: k < i ==> !RoomAt(h, l, k)
  }

  /** The class of a layout: the smallest block that holds it. */
  ghost predicate Tightest(l: C.Layout, c: nat) {
    c < 14 && l.size <= C.CLASS_SIZES[c] && forall k :: 0 <= k < c ==> C.CLASS_SIZES[k] < l.size
  }

  lemma TightestIsClass(l: C.Layout, c: nat)
    requires 0 < l.size && l.size <= 2048 && l.align <= 16
    ensures Tightest(l, c) <==> C.ClassOf(l) == Some(c)
  {
    C.ClassIsTightest(l);
    hide C.ClassOf;
    var d := C.ClassOf(l).value;
    assert Tightest(l, d);
    if Tightest(l, c) {
      NoTighter(l, c, d);
      NoTighter(l, d, c);
    }
  }

  lemma NoTighter(l: C.Layout, c: nat, d: nat)
    requires Tightest(l, c) && Tightest(l, d)
    ensures c <= d
  {
  }

  lemma PoolServes(h: Heap, l: C.Layout)
    requires 0 < l.size
    ensures PoolTry(h, l).None? <==> !(l.size >= 131_072 && l.align <= 4096) || forall i: nat :: !RoomAt(h, l, i)
    ensures forall i: nat :: PoolTry(h, l) == Some(i) <==>
                               l.size >= 131_072 && l.align <= 4096 && LowestRoom(h, l, i)
  {
    forall i: nat
      ensures RoomAt(h, l, i) <==> P.Fits(h.pool.view, i, P.PagesFor(l.size))
    {
      RoomIsFit(h, l, i);
    }
    P.FirstFitIsLowest(h.pool.view, P.PagesFor(l.size), 0);
    hide P.PagesFor, RoomAt, P.Fits, P.FirstFit;
  }

  /** A request fails exactly when the pool does not serve it, as it is not for the pool or there is no room, and
      the list heap refuses: outright, or the first block of its class when the core's list has none. */
  lemma AllocFails(h: Heap, cpu: nat, l: C.Layout, answers: seq<Option<nat>>)
    requires Inv(h) && cpu < C.PCPU && LayoutOk(l) && AnswersOk(h, cpu, l, answers)
    ensures Alloc(h, cpu, l, answers).1.None? <==>
            && (!(l.size >= 131_072 && l.align <= 4096) || forall i: nat :: !RoomAt(h, l, i))
            && answers[0].None?
            && (l.size <= 2048 && l.align <= 16 ==>
                  forall c :: Tightest(l, c) ==> h.caches.lists[C.Slot(cpu, c)] == [])
  {
    assert 0 < l.size by { LayoutHasBytes(l); }
    PoolServes(h, l);
    C.ClassIsTightest(l);
    hide P.Inv, C.Partition, LayoutOk, C.ClassOf, PoolTry, RoomAt, Tightest, C.AllocStep, C.AnswersOk, TakePool;
    if C.ClassOf(l).Some? {
      var c := C.ClassOf(l).value;
      TightestIsClass(l, c);
      forall d | Tightest(l, d)
        ensures d == c
      {
        TightestIsClass(l, d);
      }
      C.AllocKeeps(h.caches, C.Slot(cpu, c), answers);
    }
  }

  /** Who serves a request: the pool at its lowest room, if the layout is for it and there is room; else the
      class of a small layout, from the core's own list or what the heap grants it; else the list heap itself. */
  lemma AllocServes(h: Heap, cpu: nat, l: C.Layout, answers: seq<Option<nat>>)
    requires Inv(h) && cpu < C.PCPU && LayoutOk(l) && AnswersOk(h, cpu, l, answers)
    requires Alloc(h, cpu, l, answers).1.Some?
    ensures var (g, r) := Alloc(h, cpu, l, answers);
            && NewlyLive(h, g, r.value, l)
            && if l.size >= 131_072 && l.align <= 4096 && exists i: nat :: RoomAt(h, l, i) then
                 FromLowestRoom(h, g, r.value, l)
               else if l.size <= 2048 && l.align <= 16 then
                 FromTightest(h, g, r.value, cpu, l, answers)
               else
                 g.pool == h.pool && g.live[r.value].origin == FromList && r == answers[0]
  {
    assert 0 < l.size by { LayoutHasBytes(l); }
    PoolServes(h, l);
    C.ClassIsTightest(l);
    hide Inv, LayoutOk, C.ClassOf, PoolTry, RoomAt, NewlyLive, FromLowestRoom, FromTightest, AnswersOk, Alloc;
    if PoolTry(h, l).Some? {
      PoolServed(h, cpu, l, answers);
      assert RoomAt(h, l, PoolTry(h, l).value);
    } else if C.ClassOf(l).Some? {
      ClassServed(h, cpu, l, answers);
    } else {
      ListServed(h, cpu, l, answers);
    }
  }

  /** The only new block of the clients is p, for this layout. */
  ghost predicate NewlyLive(h: Heap, g: Heap, p: nat, l: C.Layout) {
    p !in h.live && p in g.live && g.live == h.live[p := g.live[p]] && g.live[p].layout == l
  }

  ghost predicate FromLowestRoom(h: Heap, g: Heap, p: nat, l: C.Layout)
    requires p in g.live
  {
    && g.live[p].origin == FromPool && g.caches == h.caches
    && exists i: nat :: LowestRoom(h, l, i) && p == h.pool.view.base + i * 4096
  }

  /** The first block of the core's list, or of what the heap grants when that has none. */
  ghost predicate FromTightest(h: Heap, g: Heap, p: nat, cpu: nat, l: C.Layout, answers: seq<Option<nat>>)
    requires p in g.live && C.Shape(h.caches) && cpu < C.PCPU
  {
    && g.pool == h.pool && g.live[p].origin.FromClass?
    && var c := g.live[p].origin.c;
       && Tightest(l, c)
       && var offer := C.OnOffer(h.caches, C.Slot(cpu, c), answers);
          offer != [] && p == offer[0]
  }

  lemma PoolServed(h: Heap, cpu: nat, l: C.Layout, answers: seq<Option<nat>>)
    requires Inv(h) && cpu < C.PCPU && LayoutOk(l) && AnswersOk(h, cpu, l, answers) && PoolTry(h, l).Some?
    ensures var (g, r) := Alloc(h, cpu, l, answers);
            r.Some? && NewlyLive(h, g, r.value, l) && FromLowestRoom(h, g, r.value, l)
  {
    hide P.Inv, C.Partition, C.Bounded, Regions, PoolBlocks, HeapBlocks, Layouts, LayoutOk, PoolTry, LowestRoom, RoomAt;
    hide C.AnswersOk, C.ClassOf, P.PagesFor, P.Take, C.AllocStep, C.LargeAlloc;
    var i := PoolTry(h, l).value;
    LayoutHasBytes(l);
    PoolServes(h, l);
    assert LowestRoom(h, l, i);
    NewPoolBlock(h, l, i);
    assert Alloc(h, cpu, l, answers) == (TakePool(h, l, i), Some(Address(h.pool.view.base, i)));
  }

  lemma ClassServed(h: Heap, cpu: nat, l: C.Layout, answers: seq<Option<nat>>)
    requires Inv(h) && cpu < C.PCPU && LayoutOk(l) && AnswersOk(h, cpu, l, answers)
    requires PoolTry(h, l).None? && C.ClassOf(l).Some? && Alloc(h, cpu, l, answers).1.Some?
    ensures var (g, r) := Alloc(h, cpu, l, answers);
            NewlyLive(h, g, r.value, l) && FromTightest(h, g, r.value, cpu, l, answers)
  {
    hide LayoutOk, C.ClassOf, PoolTry, Tightest, C.AllocStep, C.AnswersOk, C.Granted, C.Partition, P.Inv;
    hide C.Bounded, Regions, PoolBlocks, HeapBlocks, Layouts, TakePool, C.LargeAlloc, P.PagesFor;
    LayoutHasBytes(l);
    C.ClassIsTightest(l);
    var c := C.ClassOf(l).value;
    TightestIsClass(l, c);
    C.AllocMoves(h.caches, C.Slot(cpu, c), answers);
    NewClassBlock(h, cpu, l, answers);
  }

  lemma ListServed(h: Heap, cpu: nat, l: C.Layout, answers: seq<Option<nat>>)
    requires Inv(h) && cpu < C.PCPU && LayoutOk(l) && AnswersOk(h, cpu, l, answers)
    requires PoolTry(h, l).None? && C.ClassOf(l).None? && Alloc(h, cpu, l, answers).1.Some?
    ensures var (g, r) := Alloc(h, cpu, l, answers);
            NewlyLive(h, g, r.value, l) && g.pool == h.pool && g.live[r.value].origin == FromList && r == answers[0]
  {
    hide LayoutOk, C.ClassOf, PoolTry, C.Partition, P.Inv, C.Bounded, PoolBlocks, HeapBlocks, Layouts, TakePool;
    hide C.AllocStep, C.AnswersOk;
    LayoutHasBytes(l);
    C.LargeAllocKeeps(h.caches, answers[0].value, l.size);
    NewHeapBlock(h, answers[0].value);
  }

  lemma NewClassBlock(h: Heap, cpu: nat, l: C.Layout, answers: seq<Option<nat>>)
    requires Inv(h) && cpu < C.PCPU && C.ClassOf(l).Some? && AnswersOk(h, cpu, l, answers)
    requires C.AllocStep(h.caches, C.Slot(cpu, C.ClassOf(l).value), answers).1.Some?
    ensures C.AllocStep(h.caches, C.Slot(cpu, C.ClassOf(l).value), answers).1.value !in h.live
  {
    hide P.Inv, C.Partition, C.ClassOf, C.AllocStep, C.AnswersOk;
    var c := C.ClassOf(l).value;
    var (v, r) := C.AllocStep(h.caches, C.Slot(cpu, c), answers);
    C.AllocKeeps(h.caches, C.Slot(cpu, c), answers);
    AllocRegion(h, cpu, c, answers);
    SmallBlockFacts(v, r.value);
    NewHeapBlock(h, r.value);
  }

  // ---------- giving back ----------

  lemma FreeRegion(h: Heap, s: C.Slot, p: nat)
    requires C.Shape(h.caches) && Regions(h) && s.Valid()
    ensures WithinRegion(C.FreeStep(h.caches, s, p).out, h.lo, h.hi)
    ensures C.FreeStep(h.caches, s, p).table == h.caches.table
  {
    hide C.DropMany;
    var w := C.Park(h.caches, s, p);
    if |w.lists[s]| > C.HIGH_WATER {
      DropRegion(w, s, C.BATCH, h.lo, h.hi);
    }
  }

  /** A list-heap block leaves a client: what the other blocks need. */
  lemma RemoveHeapBlock(h: Heap, g: Heap, p: nat)
    requires PoolBlocks(h) && HeapBlocks(h) && p in h.live && h.live[p].origin != FromPool
    requires g.pool == h.pool && g.live == h.live - {p}
    requires p in g.caches.place ==> g.caches.place[p].Parked?
    requires forall q :: q != p && q in h.caches.place && !h.caches.place[q].Parked? ==>
                           q in g.caches.place && g.caches.place[q] == h.caches.place[q]
    requires forall q :: q != p && q in g.caches.place && !g.caches.place[q].Parked? ==>
                           q in h.caches.place && h.caches.place[q] == g.caches.place[q]
    ensures PoolBlocks(g) && HeapBlocks(g)
  {
    hide PoolBlocks, C.ClassOf;
    OthersKeepPool(h, g, p);
  }

  lemma DeallocToClass(h: Heap, cpu: nat, p: nat)
    requires Inv(h) && cpu < C.PCPU && p in h.live && h.live[p].origin.FromClass?
    ensures Inv(Dealloc(h, cpu, p, h.live[p].layout))
  {
    hide P.Inv, C.Partition, Aligned, LayoutOk, Owns, Address, PageOf, P.PagesFor, C.ClassOf, PoolBlocks,
         C.FreeStep, C.Park, Route;
    RouteFindsOrigin(h, p);
    var l := h.live[p].layout;
    var c := h.live[p].origin.c;
    C.ClassIsTightest(l);
    var s := C.Slot(cpu, c);
    C.FreeKeeps(h.caches, s, p);
    FreeRegion(h, s, p);
    RemoveHeapBlock(h, Dealloc(h, cpu, p, l), p);
  }

  lemma DeallocToList(h: Heap, cpu: nat, p: nat)
    requires Inv(h) && cpu < C.PCPU && p in h.live && h.live[p].origin.FromList?
    ensures Inv(Dealloc(h, cpu, p, h.live[p].layout))
  {
    hide P.Inv, C.Partition, Aligned, LayoutOk, Owns, Address, PageOf, P.PagesFor, C.ClassOf, PoolBlocks, Route;
    RouteFindsOrigin(h, p);
    C.LargeFreeKeeps(h.caches, p);
    RemoveHeapBlock(h, Dealloc(h, cpu, p, h.live[p].layout), p);
  }

  lemma RemovePoolBlock(h: Heap, g: Heap, p: nat)
    requires PoolBlocks(h) && HeapBlocks(h) && p in h.live && h.live[p].origin == FromPool
    requires g.pool.view.base == h.pool.view.base && g.pool.view.pages == h.pool.view.pages
    requires g.caches == h.caches && g.live == h.live - {p}
    requires g.pool.live == h.pool.live - {PageOf(h.pool.view.base, p)}
    ensures PoolBlocks(g) && HeapBlocks(g)
  {
    hide Owns, P.PagesFor, C.ClassOf, PageOf, Address;
    forall i: nat
      ensures PageOf(h.pool.view.base, Address(h.pool.view.base, i)) == i
    {
      PageRoundTrip(h.pool.view.base, i + 1, i);
    }
  }

  lemma DeallocToPool(h: Heap, cpu: nat, p: nat)
    requires Inv(h) && cpu < C.PCPU && p in h.live && h.live[p].origin == FromPool
    ensures Inv(Dealloc(h, cpu, p, h.live[p].layout))
  {
    hide P.Inv, C.Partition, Aligned, LayoutOk, Owns, Address, P.PagesFor, C.ClassOf, Route;
    RouteFindsOrigin(h, p);
    var first := PageOf(h.pool.view.base, p);
    P.FreeKeepsInv(h.pool, first);
    RemovePoolBlock(h, Dealloc(h, cpu, p, h.live[p].layout), p);
  }

  lemma InstallKeeps(h: Heap, base: nat, pages: nat)
    requires Inv(h) && h.pool.view.pages == 0 && base % P.PAGE_SIZE == 0
    requires base + pages * P.PAGE_SIZE <= h.lo || h.hi <= base
    ensures Inv(Install(h, base, pages))
  {
    hide C.Partition, Aligned, LayoutOk, C.ClassOf;
    var g := Install(h, base, pages);
    assert h.pool.live == map[] by {
      assert P.BlocksInPool(h.pool);
    }
  }

  // ---------- every run ----------

  datatype Event =
    | EInstall(base: nat, pages: nat)
    | EAlloc(cpu: nat, layout: C.Layout, answers: seq<Option<nat>>)
    | EDealloc(cpu: nat, ptr: nat)

  /** The pool is installed once, from memory the list heap does not have; a block is
      given back with the layout it was asked for with, by any core. */
  ghost predicate Enabled(h: Heap, e: Event)
    requires C.Shape(h.caches)
  {
    match e
    case EInstall(base, pages) =>
      h.pool.view.pages == 0 && base % P.PAGE_SIZE == 0
      && (base + pages * P.PAGE_SIZE <= h.lo || h.hi <= base)
    case EAlloc(cpu, l, answers) => cpu < C.PCPU && LayoutOk(l) && AnswersOk(h, cpu, l, answers)
    case EDealloc(cpu, ptr) => cpu < C.PCPU && ptr in h.live
  }

  ghost function Step(h: Heap, e: Event): Heap
    requires C.Shape(h.caches) && Enabled(h, e)
  {
    match e
    case EInstall(base, pages) => Install(h, base, pages)
    case EAlloc(cpu, l, answers) => Alloc(h, cpu, l, answers).0
    case EDealloc(cpu, ptr) => Dealloc(h, cpu, ptr, h.live[ptr].layout)
  }

  lemma StepKeeps(h: Heap, e: Event)
    requires Inv(h) && Enabled(h, e)
    ensures Inv(Step(h, e))
  {
    match e {
      case EInstall(base, pages) =>
        InstallKeeps(h, base, pages);
      case EAlloc(cpu, l, answers) =>
        if PoolTry(h, l).Some? {
          AllocFromPool(h, cpu, l, answers);
        } else if C.ClassOf(l).Some? {
          AllocFromClass(h, cpu, l, answers);
        } else {
          AllocFromList(h, cpu, l, answers);
        }
      case EDealloc(cpu, ptr) =>
        match h.live[ptr].origin {
          case FromPool => DeallocToPool(h, cpu, ptr);
          case FromClass(_) => DeallocToClass(h, cpu, ptr);
          case FromList => DeallocToList(h, cpu, ptr);
        }
    }
  }

  /** A run is a sequence of events, each enabled in the state the earlier ones left. */
  ghost predicate Reaches(h: Heap, es: seq<Event>, g: Heap)
    decreases |es|
  {
    if es == [] then g == h
    else C.Shape(h.caches) && Enabled(h, es[0]) && Reaches(Step(h, es[0]), es[1..], g)
  }

  ghost predicate Boot(h: Heap) {
    && h.pool == P.RunState(P.PoolView(0, 0, {}, 0, 0), map[])
    && C.AllSlots(h.caches.lists) && (forall s :: s in h.caches.lists ==> h.caches.lists[s] == [])
    && h.caches.table == C.CLASS_SIZES && h.caches.place == map[] && h.caches.out == map[] && h.live == map[]
  }

  lemma BootOk(h: Heap)
    requires Boot(h)
    ensures Inv(h)
  {
    assert C.TableOk(C.CLASS_SIZES);
    C.EmptyParked(h.caches.table, h.caches.lists, C.SLOTS);
  }

  lemma {:induction false} RunKeeps(h: Heap, es: seq<Event>, g: Heap)
    requires Inv(h) && Reaches(h, es, g)
    ensures Inv(g)
    decreases |es|
  {
    hide Inv;
    if es != [] {
      StepKeeps(h, es[0]);
      RunKeeps(Step(h, es[0]), es[1..], g);
    }
  }

  // ---------- what clients see ----------

  /** The bytes reserved for a live block. */
  ghost function Extent(h: Heap, p: nat): nat
    requires p in h.live && (h.live[p].origin != FromPool ==> p in h.caches.out)
  {
    if h.live[p].origin == FromPool then P.PagesFor(h.live[p].layout.size) * P.PAGE_SIZE else h.caches.out[p]
  }

  lemma BlockIsBigEnough(h: Heap, p: nat)
    requires Inv(h) && p in h.live
    ensures h.live[p].origin != FromPool ==> p in h.caches.out && InRegion(h, p, h.caches.out[p])
    ensures h.live[p].layout.size <= Extent(h, p)
    ensures Aligned(p, h.live[p].layout.align)
  {
    C.ClassIsTightest(h.live[p].layout);
    if h.live[p].origin != FromPool {
      HeapBlockOut(h, p);
    }
  }

  lemma HeapBlockOut(h: Heap, p: nat)
    requires C.Partition(h.caches) && HeapBlocks(h) && p in h.live && h.live[p].origin != FromPool
    ensures p in h.caches.out && h.caches.out[p] == C.SizeOf(h.caches.table, h.caches.place[p])
  {
    assert C.PlacesOk(h.caches);
  }

  /** No two live blocks share a byte, whichever allocators served them. */
  lemma BlocksDisjoint(h: Heap, p: nat, q: nat)
    requires Inv(h) && p in h.live && q in h.live && p < q
    ensures p + h.live[p].layout.size <= q
  {
    BlockIsBigEnough(h, p);
    BlockIsBigEnough(h, q);
    hide C.Partition, C.ClassOf;
    if h.live[p].origin == FromPool && h.live[q].origin == FromPool {
      PoolRunsApart(h, p, q);
    } else if h.live[p].origin != FromPool && h.live[q].origin != FromPool {
      HeapRangesApart(h.caches, p, q);
    }
  }

  lemma HeapRangesApart(v: C.View, p: nat, q: nat)
    requires C.Partition(v) && p in v.out && q in v.out && p < q
    ensures p + v.out[p] <= q
  {
  }

  lemma PoolRunsApart(h: Heap, p: nat, q: nat)
    requires P.Inv(h.pool) && PoolBlocks(h) && p in h.live && q in h.live && p < q
    requires h.live[p].origin == FromPool && h.live[q].origin == FromPool
    ensures p + Extent(h, p) <= q
  {
    var base := h.pool.view.base;
    var i, j := PageOf(base, p), PageOf(base, q);
    var n := h.pool.live[i];
    assert i < j;
    assert P.Disjoint(h.pool.live);
    assert P.Run(i, n) !! P.Run(j, h.pool.live[j]);
    assert j in P.Run(j, h.pool.live[j]);
    assert P.Within(j, i, n) ==> j in P.Run(i, n);
  }

  /** In every state of every run from boot: the pool's runs and the caches' places
      partition the memory handed out, every block would be given back to the allocator
      that served it, and blocks are aligned, large enough and disjoint. */
  lemma EveryRun(h: Heap, es: seq<Event>, g: Heap)
    requires Boot(h) && Reaches(h, es, g)
    ensures P.Inv(g.pool) && C.Partition(g.caches) && C.Bounded(g.caches)
    ensures forall p :: p in g.live ==>
              && Route(g, p, g.live[p].layout) == g.live[p].origin
              && Aligned(p, g.live[p].layout.align)
              && (g.live[p].origin != FromPool ==> p in g.caches.out)
              && g.live[p].layout.size <= Extent(g, p)
    ensures forall p, q :: p in g.live && q in g.live && p < q ==> p + g.live[p].layout.size <= q
  {
    hide Route, C.Partition, P.Inv, Aligned, Reaches;
    BootOk(h);
    RunKeeps(h, es, g);
    forall p | p in g.live
      ensures Route(g, p, g.live[p].layout) == g.live[p].origin && Aligned(p, g.live[p].layout.align)
      ensures g.live[p].origin != FromPool ==> p in g.caches.out
      ensures g.live[p].layout.size <= Extent(g, p)
    {
      RouteFindsOrigin(g, p);
      BlockIsBigEnough(g, p);
    }
    forall p, q | p in g.live && q in g.live && p < q
      ensures p + g.live[p].layout.size <= q
    {
      BlocksDisjoint(g, p, q);
    }
  }

  // ---------- the allocator object ----------

  class KernelHeap {
    const pool: P.BigPool
    const caches: C.Caches
    ghost const lo: nat
    ghost const hi: nat
    ghost var poolLive: map<nat, nat>
    ghost var live: map<nat, Block>

    ghost predicate Whole()
      reads this, pool, pool.bits, caches, caches.cells
    {
      pool.Valid() && caches.Valid()
    }

    ghost function Abs(): (h: Heap)
      requires Whole()
      reads this, pool, pool.bits, caches, caches.cells
      ensures C.Shape(h.caches)
    {
      Heap(P.RunState(pool.View(), poolLive), caches.Abs(), live, lo, hi)
    }

    ghost predicate Valid()
      reads this, pool, pool.bits, caches, caches.cells
    {
      Whole() && Inv(Abs())
    }

    /** At boot: no pool yet, nothing handed out. */
    constructor (ghost lo: nat, ghost hi: nat)
      ensures Valid() && fresh(pool) && fresh(pool.bits) && fresh(caches) && fresh(caches.cells)
      ensures Abs().live == map[] && Abs().pool.view.pages == 0 && Abs().lo == lo && Abs().hi == hi
    {
      pool := new P.BigPool();
      caches := new C.Caches();
      this.lo, this.hi := lo, hi;
      poolLive, live := map[], map[];
    }

    method InstallPool(base: nat, pages: nat)
      requires Valid() && Enabled(Abs(), EInstall(base, pages))
      modifies this, pool, pool.bits
      ensures Valid()
      ensures Abs() == Install(old(Abs()), base, pages)
    {
      hide Inv, C.Partition, C.Bounded;
      ghost var h := Abs();
      StepKeeps(h, EInstall(base, pages));
      pool.Install(base, pages);
      poolLive := map[];
    }

    method TryPool(l: C.Layout) returns (r: Option<nat>)
      requires Whole() && 0 < l.size
      modifies this, pool, pool.bits
      ensures Whole()
      ensures match PoolTry(old(Abs()), l)
              case None => r == None && Abs() == old(Abs())
              case Some(i) => r == Some(Address(old(Abs()).pool.view.base, i)) && Abs() == TakePool(old(Abs()), l, i)
    {
      hide C.Partition, C.Bounded, P.FirstFit, P.PagesFor;
      ghost var h := Abs();
      r := None;
      if l.size >= BIG_MIN && l.align <= BIG_ALIGN {
        r := pool.Alloc(l.size);
        if r.Some? {
          ghost var i := P.FirstFit(h.pool.view, P.PagesFor(l.size), 0).value;
          poolLive := poolLive[i := P.PagesFor(l.size)];
          live := live[r.value := Block(l, FromPool)];
        }
      }
    }

    /** A core asks for a block: the pool for big layouts, else its own slot's class, else the list heap. */
    method AllocInner(ready: bool, core: nat, l: C.Layout, answers: seq<Option<nat>>) returns (r: Option<nat>)
      requires Valid() && LayoutOk(l) && AnswersOk(Abs(), C.CpuIndex(ready, core), l, answers)
      modifies this, pool, pool.bits, caches, caches.cells
      ensures Valid()
      ensures (Abs(), r) == Alloc(old(Abs()), C.CpuIndex(ready, core), l, answers)
    {
      hide Inv, C.Partition, C.Bounded, C.AllocStep, C.LargeAlloc, AnswersOk, PoolTry, TakePool, C.ClassOf;
      hide P.TakenPages, C.Chain, C.Linked, LayoutOk, C.CpuIndex;
      ghost var h := Abs();
      var cpu := C.CpuIndex(ready, core);
      assert 0 < l.size by { LayoutHasBytes(l); }
      StepKeeps(h, EAlloc(cpu, l, answers));
      r := TryPool(l);
      if r.None? {
        r := FromHeap(cpu, l, answers);
      }
    }

    method FromHeap(cpu: nat, l: C.Layout, answers: seq<Option<nat>>) returns (r: Option<nat>)
      requires Whole() && cpu < C.PCPU && AnswersOk(Abs(), cpu, l, answers)
      modifies this, caches, caches.cells
      ensures Whole()
      ensures PoolTry(old(Abs()), l).None? ==> (Abs(), r) == Alloc(old(Abs()), cpu, l, answers)
    {
      hide C.Partition, C.Bounded, C.AnswersOk, C.AllocStep, C.LargeAlloc, C.Fresh, PoolTry, TakePool, C.ClassOf;
      hide P.TakenPages, C.Chain, C.Linked;
      ghost var h := Abs();
      var c := C.ClassOf(l);
      if c.Some? {
        r := caches.SmallAlloc(C.Slot(cpu, c.value), answers);
        if r.Some? {
          live := live[r.value := Block(l, FromClass(c.value))];
        }
        return;
      }
      r := caches.LargeAllocate(l.size, answers[0]);
      if r.Some? {
        live := live[r.value := Block(l, FromList)];
      }
    }

    /** The pool's part of a free. */
    method ToPool(ptr: nat, l: C.Layout)
      requires Whole() && pool.base <= ptr
      modifies this, pool, pool.bits
      ensures Whole()
      ensures var h, first := old(Abs()), PageOf(old(pool.base), ptr);
              Abs() == h.(pool := P.RunState(P.FreeStep(h.pool.view, first, P.PagesFor(l.size)), h.pool.live - {first}),
                          live := h.live - {ptr})
    {
      hide C.Partition, C.Bounded, P.FreeStep, P.PagesFor, P.TakenPages, C.Chain, C.Linked;
      live := live - {ptr};
      poolLive := poolLive - {(ptr - pool.base) / P.PAGE_SIZE};
      pool.Free(ptr, l.size);
    }

    /** The class or list-heap part of a free. */
    method ToHeap(cpu: nat, ptr: nat, l: C.Layout)
      requires Whole() && cpu < C.PCPU && ptr in caches.place
      requires match C.ClassOf(l)
               case Some(c) => c < C.NCLASS && caches.place[ptr] == C.Small(c)
               case None => caches.place[ptr].Large?
      modifies this, caches, caches.cells
      ensures Whole()
      ensures var h := old(Abs());
              Abs() == h.(live := h.live - {ptr},
                          caches := match C.ClassOf(l)
                                    case Some(c) => C.FreeStep(h.caches, C.Slot(cpu, c), ptr)
                                    case None => C.LargeFree(h.caches, ptr))
    {
      hide C.Partition, C.Bounded, C.FreeStep, C.LargeFree, C.ClassOf, P.TakenPages, C.Chain, C.Linked;
      live := live - {ptr};
      var c := C.ClassOf(l);
      if c.Some? {
        caches.SmallFree(C.Slot(cpu, c.value), ptr);
        return;
      }
      caches.LargeDeallocate(ptr);
    }

    /** A core gives a block back: to the pool by its address, else by its layout. */
    method DeallocInner(ready: bool, core: nat, ptr: nat, l: C.Layout)
      requires Valid() && ptr in live && live[ptr].layout == l
      modifies this, pool, pool.bits, caches, caches.cells
      ensures Valid()
      ensures Abs() == Dealloc(old(Abs()), C.CpuIndex(ready, core), ptr, l)
      ensures live == old(live) - {ptr}
    {
      hide Inv, C.Partition, C.Bounded, C.FreeStep, C.LargeFree, P.FreeStep, P.PagesFor, C.ClassOf, C.CpuIndex;
      hide P.TakenPages, C.Chain, C.Linked, PageOf;
      ghost var h := Abs();
      var cpu := C.CpuIndex(ready, core);
      StepKeeps(h, EDealloc(cpu, ptr));
      RouteFindsOrigin(h, ptr);
      LivePlace(h, ptr);
      if pool.base <= ptr < pool.base + pool.pages * P.PAGE_SIZE {
        ToPool(ptr, l);
      } else {
        ToHeap(cpu, ptr, l);
      }
    }
  }

  lemma LivePlace(h: Heap, p: nat)
    requires Inv(h) && p in h.live
    ensures match h.live[p].origin
            case FromPool => true
            case FromClass(c) => c < C.NCLASS && p in h.caches.place && h.caches.place[p] == C.Small(c)
            case FromList => p in h.caches.place && h.caches.place[p].Large?
  {
    C.ClassIsTightest(h.live[p].layout);
  }
}
