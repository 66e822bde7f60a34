/** The kernel heap's big-block pool: a bitmap over 4 KiB pages, searched first fit
    with two shortcuts (whole full words are skipped, and a run that is too short is
    jumped over together with the page that ended it).

    `PoolView` is the meaning of the bitmap as a set of taken pages; `FirstFit` is the
    naive search over that set.  The class `BigPool` does what the kernel does on
    64-bit words and is proved against them. */
module BigPools {
  import opened Common
  import opened Words

  const PAGE_SIZE: nat := 4096
  const BIG_MAX_PAGES: nat := 131_072
  const WORDS: nat := 2048

  datatype PoolView = PoolView(base: nat, pages: nat, taken: set<nat>, used: nat, peak: nat)

  predicate Within(p: nat, i: nat, n: nat) {
    i <= p < i + n
  }

  /** Pages i, i+1, ..., i+n-1. */
  ghost function Run(i: nat, n: nat): set<nat> {
    set p: nat | p < i + n && Within(p, i, n)
  }

  ghost predicate Fits(v: PoolView, i: nat, need: nat) {
    i + need <= v.pages && Run(i, need) !! v.taken
  }

  /** The pages a block of `size` bytes takes. */
  function PagesFor(size: nat): nat {
    (size + PAGE_SIZE - 1) / PAGE_SIZE
  }

  // ---------- the naive search ----------

  ghost function FirstFit(v: PoolView, need: nat, from: nat): Option<nat>
    decreases v.pages + 1 - from
  {
    if v.pages < from + need then None
    else if from <= v.pages && Fits(v, from, need) then Some(from)
    else if from < v.pages then FirstFit(v, need, from + 1)
    else None
  }

  lemma {:induction false} FirstFitIsLowest(v: PoolView, need: nat, from: nat)
    ensures FirstFit(v, need, from).None? <==> forall i: nat :: from <= i ==> !Fits(v, i, need)
    ensures forall i: nat :: FirstFit(v, need, from) == Some(i) <==>
              from <= i && Fits(v, i, need) && forall k: nat :: from <= k < i ==> !Fits(v, k, need)
    decreases v.pages + 1 - from
  {
    if v.pages < from + need {
    } else if from <= v.pages && Fits(v, from, need) {
    } else if from < v.pages {
      FirstFitIsLowest(v, need, from + 1);
    }
  }

  lemma FoundFits(v: PoolView, need: nat)
    ensures FirstFit(v, need, 0).Some? ==> Fits(v, FirstFit(v, need, 0).value, need)
  {
    FirstFitIsLowest(v, need, 0);
  }

  // ---------- what one call does to the view ----------

  ghost function Take(v: PoolView, i: nat, need: nat): PoolView {
    v.(taken := v.taken + Run(i, need),
       used := v.used + need,
       peak := Max(v.peak, v.used + need))
  }

  ghost function AllocStep(v: PoolView, need: nat): (PoolView, Option<nat>) {
    match FirstFit(v, need, 0)
    case None => (v, None)
    case Some(i) => (Take(v, i, need), Some(i))
  }

  ghost function FreeStep(v: PoolView, first: nat, need: nat): PoolView {
    var end := Min(first + need, v.pages);
    v.(taken := (set p | p in v.taken && !(first <= p < end)),
       used := if need <= v.used then v.used - need else 0)
  }

  // ---------- every run of matched allocs and frees ----------

  datatype Event = EAlloc(need: nat) | EFree(start: nat)

  /** `live` maps the first page of each block in use to its length in pages. */
  datatype RunState = RunState(view: PoolView, live: map<nat, nat>)

  ghost predicate Enabled(s: RunState, e: Event) {
    match e
    case EAlloc(need) => 0 < need
    case EFree(start) => start in s.live
  }

  ghost function Step(s: RunState, e: Event): RunState
    requires Enabled(s, e)
  {
    match e
    case EAlloc(need) =>
      var (v, r) := AllocStep(s.view, need);
      if r.Some? then RunState(v, s.live[r.value := need]) else s
    case EFree(start) =>
      RunState(FreeStep(s.view, start, s.live[start]), s.live - {start})
  }

  ghost function Installed(base: nat, pages: nat): RunState {
    RunState(PoolView(base, Min(pages, BIG_MAX_PAGES), {}, 0, 0), map[])
  }

  ghost predicate Runnable(s: RunState, es: seq<Event>)
    decreases |es|
  {
    es == [] || (Enabled(s, es[0]) && Runnable(Step(s, es[0]), es[1..]))
  }

  ghost function Exec(s: RunState, es: seq<Event>): RunState
    requires Runnable(s, es)
    decreases |es|
  {
    if es == [] then s else Exec(Step(s, es[0]), es[1..])
  }

  /** The largest `used` seen in any state of the run. */
  ghost function HighestUsed(s: RunState, es: seq<Event>): nat
    requires Runnable(s, es)
    decreases |es|
  {
    if es == [] then s.view.used
    else
      var rest := HighestUsed(Step(s, es[0]), es[1..]);
      Max(s.view.used, rest)
  }

  ghost predicate Disjoint(live: map<nat, nat>) {
    forall a, b :: a in live && b in live && a != b ==> Run(a, live[a]) !! Run(b, live[b])
  }

  ghost predicate BlocksInPool(s: RunState) {
    forall a :: a in s.live ==> 0 < s.live[a] && a + s.live[a] <= s.view.pages
  }

  ghost predicate TakenIsUnion(s: RunState) {
    && (forall a, p :: a in s.live && p in Run(a, s.live[a]) ==> p in s.view.taken)
    && (forall p :: p in s.view.taken ==> exists a :: a in s.live && p in Run(a, s.live[a]))
  }

  ghost predicate Inv(s: RunState) {
    && BlocksInPool(s)
    && Disjoint(s.live)
    && TakenIsUnion(s)
    && s.view.used == |s.view.taken|
    && s.view.used <= s.view.peak
  }

  lemma {:induction false} RunSize(i: nat, n: nat)
    ensures |Run(i, n)| == n
  {
    if n == 0 {
      assert Run(i, n) == {};
    } else {
      RunSize(i, n - 1);
      assert Run(i, n) == Run(i, n - 1) + {i + n - 1};
    }
  }

  lemma FitIsNew(s: RunState, i: nat, need: nat)
    requires Inv(s) && 0 < need && Fits(s.view, i, need)
    ensures i !in s.live
  {
    assert i in Run(i, need);
    assert forall a :: a in s.live ==> a in Run(a, s.live[a]);
  }

  lemma TakeKeepsUnion(s: RunState, i: nat, need: nat)
    requires Inv(s) && 0 < need && Fits(s.view, i, need)
    ensures TakenIsUnion(RunState(Take(s.view, i, need), s.live[i := need]))
  {
    FitIsNew(s, i, need);
    var t := RunState(Take(s.view, i, need), s.live[i := need]);
    forall p | p in t.view.taken
      ensures exists a :: a in t.live && p in Run(a, t.live[a])
    {
      if p in s.view.taken {
        var a :| a in s.live && p in Run(a, s.live[a]);
        assert a in t.live && t.live[a] == s.live[a];
      } else {
        assert i in t.live && p in Run(i, t.live[i]);
      }
    }
  }

  lemma TakeKeepsDisjoint(s: RunState, i: nat, need: nat)
    requires Inv(s) && 0 < need && Fits(s.view, i, need)
    ensures Disjoint(s.live[i := need])
  {
  }

  lemma TakeCounts(v: PoolView, i: nat, need: nat)
    requires v.used == |v.taken| && v.used <= v.peak && Fits(v, i, need)
    ensures var w := Take(v, i, need); w.used == |w.taken| && w.used <= w.peak
  {
    hide Run;
    RunSize(i, need);
  }

  lemma TakeKeepsInv(s: RunState, i: nat, need: nat)
    requires Inv(s) && 0 < need && Fits(s.view, i, need)
    ensures Inv(RunState(Take(s.view, i, need), s.live[i := need]))
  {
    hide Disjoint, TakenIsUnion, Run;
    TakeKeepsUnion(s, i, need);
    TakeKeepsDisjoint(s, i, need);
    TakeCounts(s.view, i, need);
  }

  lemma AllocKeepsInv(s: RunState, need: nat)
    requires Inv(s) && 0 < need
    ensures Inv(Step(s, EAlloc(need)))
  {
    hide Inv, FirstFit, Fits, Take;
    FoundFits(s.view, need);
    var r := AllocStep(s.view, need).1;
    if r.Some? {
      TakeKeepsInv(s, r.value, need);
    }
  }

  lemma FreeKeepsInv(s: RunState, start: nat)
    requires Inv(s) && start in s.live
    ensures Inv(Step(s, EFree(start)))
    ensures Step(s, EFree(start)).view.taken == s.view.taken - Run(start, s.live[start])
    ensures Step(s, EFree(start)).view.used == s.view.used - s.live[start]
  {
    var need := s.live[start];
    var t := Step(s, EFree(start));
    var run := Run(start, need);
    RunSize(start, need);
    assert run <= s.view.taken;
    assert t.view.taken == s.view.taken - run;
    assert |t.view.taken| == |s.view.taken| - need;
    forall p | p in t.view.taken
      ensures exists a :: a in t.live && p in Run(a, t.live[a])
    {
      var a :| a in s.live && p in Run(a, s.live[a]);
      assert a != start;
      assert a in t.live && t.live[a] == s.live[a];
    }
    forall a, p | a in t.live && p in Run(a, t.live[a])
      ensures p in t.view.taken
    {
      assert Run(a, s.live[a]) !! run;
    }
  }

  lemma StepKeepsInv(s: RunState, e: Event)
    requires Inv(s) && Enabled(s, e)
    ensures Inv(Step(s, e))
    ensures Step(s, e).view.pages == s.view.pages && Step(s, e).view.base == s.view.base
    ensures Step(s, e).view.peak == Max(s.view.peak, Step(s, e).view.used)
  {
    match e {
      case EAlloc(need) => AllocKeepsInv(s, need);
      case EFree(start) => FreeKeepsInv(s, start);
    }
  }

  lemma UsedAtMostPeak(s: RunState)
    requires Inv(s)
    ensures s.view.used <= s.view.peak
  {
  }

  /** Over every run: live blocks are disjoint page runs inside the pool, the taken
      pages are exactly their union, `used` counts them, and `peak` is the largest
      `used` of any state of the run. */
  lemma {:induction false} EveryRunFrom(s: RunState, es: seq<Event>)
    requires Inv(s) && Runnable(s, es)
    ensures Inv(Exec(s, es))
    ensures Exec(s, es).view.pages == s.view.pages && Exec(s, es).view.base == s.view.base
    ensures Exec(s, es).view.peak == Max(s.view.peak, HighestUsed(s, es))
    decreases |es|
  {
    hide Inv, Step;
    UsedAtMostPeak(s);
    if es != [] {
      StepKeepsInv(s, es[0]);
      EveryRunFrom(Step(s, es[0]), es[1..]);
    }
  }

  lemma EveryRun(base: nat, pages: nat, es: seq<Event>)
    requires Runnable(Installed(base, pages), es)
    ensures Inv(Exec(Installed(base, pages), es))
    ensures Exec(Installed(base, pages), es).view.peak == HighestUsed(Installed(base, pages), es)
  {
    EveryRunFrom(Installed(base, pages), es);
  }

  /** A pool just installed has every page free, up to the bitmap's 131072: it serves exactly the requests
      that fit, at its first page. */
  lemma FreshPoolServes(base: nat, pages: nat, need: nat)
    requires 0 < need
    ensures AllocStep(Installed(base, pages).view, need).1 ==
            if need <= pages && need <= 131_072 then Some(0) else None
  {
    FirstFitIsLowest(Installed(base, pages).view, need, 0);
  }

  /** A block takes the fewest pages that hold its bytes. */
  lemma PagesHold(size: nat, k: nat)
    ensures k < PagesFor(size) <==> k * 4096 < size
  {
  }

  /** Freeing what was just allocated restores the taken pages and the use count. */
  lemma AllocThenFree(s: RunState, need: nat)
    requires Inv(s) && 0 < need
    requires AllocStep(s.view, need).1.Some?
    ensures var i := AllocStep(s.view, need).1.value;
            var t := Step(s, EAlloc(need));
            i in t.live && Step(t, EFree(i)).live == s.live
            && Step(t, EFree(i)).view.taken == s.view.taken
            && Step(t, EFree(i)).view.used == s.view.used
  {
    hide Inv, FirstFit, FreeStep, Run;
    FoundFits(s.view, need);
    var i := AllocStep(s.view, need).1.value;
    var t := Step(s, EAlloc(need));
    AllocKeepsInv(s, need);
    FreeKeepsInv(t, i);
    FitIsNew(s, i, need);
    assert t.view.taken - Run(i, need) == s.view.taken;
    assert s.live[i := need] - {i} == s.live;
  }

  // ---------- the bitmap ----------

  const WORD_MAX: u64 := 0xFFFF_FFFF_FFFF_FFFF

  predicate TakenBit(bits: seq<u64>, p: nat)
    requires |bits| == WORDS && p < BIG_MAX_PAGES
  {
    Bit(bits[p / 64], p % 64)
  }

  ghost function TakenPages(bits: seq<u64>): set<nat>
    requires |bits| == WORDS
  {
    set p: nat | p < BIG_MAX_PAGES && TakenBit(bits, p)
  }

  lemma ChangeOnePage(bits: seq<u64>, p: nat)
    requires |bits| == WORDS && p < BIG_MAX_PAGES
    ensures SetBit(bits[p / 64], p % 64) <= WORD_MAX && ClearBit(bits[p / 64], p % 64) <= WORD_MAX
    ensures TakenPages(bits[p / 64 := SetBit(bits[p / 64], p % 64)]) == TakenPages(bits) + {p}
    ensures TakenPages(bits[p / 64 := ClearBit(bits[p / 64], p % 64)]) == TakenPages(bits) - {p}
  {
    Pow2Of64();
    BitWidth(bits[p / 64], p % 64, 64);
    forall q: nat | q < BIG_MAX_PAGES
      ensures TakenBit(bits[p / 64 := SetBit(bits[p / 64], p % 64)], q) <==> q == p || TakenBit(bits, q)
      ensures TakenBit(bits[p / 64 := ClearBit(bits[p / 64], p % 64)], q) <==> q != p && TakenBit(bits, q)
    {
      BitFacts(bits[p / 64], p % 64, q % 64);
    }
  }

  lemma FullWord(bits: seq<u64>, i: nat)
    requires |bits| == WORDS && i < BIG_MAX_PAGES && i % 64 == 0
    requires bits[i / 64] == WORD_MAX
    ensures Run(i, 64) <= TakenPages(bits)
  {
    Pow2Of64();
    forall p | p in Run(i, 64)
      ensures p in TakenPages(bits)
    {
      assert p / 64 == i / 64;
      AllOnes(p % 64, 64);
      assert TakenBit(bits, p);
    }
  }

  lemma ClearBits(bits: seq<u64>)
    requires |bits| == WORDS && forall w | 0 <= w < WORDS :: bits[w] == 0
    ensures TakenPages(bits) == {}
  {
    forall p: nat | p < BIG_MAX_PAGES
      ensures !TakenBit(bits, p)
    {
      assert bits[p / 64] == 0;
      NoOnes(p % 64);
    }
  }

  /** No start in [i, j) fits when every run of `need` pages from there meets page `p`. */
  lemma NoFitAcross(v: PoolView, need: nat, i: nat, j: nat, p: nat)
    requires p in v.taken && j <= p + 1 && p < i + need
    ensures forall k: nat :: i <= k < j ==> !Fits(v, k, need)
  {
  }

  lemma FullRunHasNoFit(v: PoolView, need: nat, i: nat)
    requires Run(i, 64) <= v.taken && 0 < need
    ensures forall k: nat :: i <= k < i + 64 ==> !Fits(v, k, need)
  {
    forall k: nat | i <= k < i + 64
      ensures !Fits(v, k, need)
    {
      assert Within(k, i, 64) && k in Run(i, 64);
      NoFitAcross(v, need, k, k + 1, k);
    }
  }

  class BigPool {
    var base: nat
    var pages: nat
    const bits: array<u64>
    var used: nat
    var peak: nat

    ghost predicate Valid()
      reads this, bits
    {
      && bits.Length == WORDS
      && pages <= BIG_MAX_PAGES
      && forall p :: p in TakenPages(bits[..]) ==> p < pages
    }

    ghost function View(): PoolView
      requires Valid()
      reads this, bits
    {
      PoolView(base, pages, TakenPages(bits[..]), used, peak)
    }

    constructor ()
      ensures Valid() && fresh(bits)
      ensures View() == PoolView(0, 0, {}, 0, 0)
    {
      base, pages, used, peak := 0, 0, 0, 0;
      bits := new u64[WORDS](_ => 0);
      new;
      ClearBits(bits[..]);
    }

    method Install(b: nat, n: nat)
      requires Valid()
      modifies this, bits
      ensures Valid()
      ensures View() == Installed(b, n).view
    {
      base := b;
      pages := Min(n, BIG_MAX_PAGES);
      forall w | 0 <= w < bits.Length {
        bits[w] := 0;
      }
      used := 0;
      peak := 0;
      ClearBits(bits[..]);
    }

    method TakePage(p: nat)
      requires Valid() && p < pages
      modifies bits
      ensures Valid() && View() == old(View()).(taken := old(View()).taken + {p})
    {
      ChangeOnePage(bits[..], p);
      bits[p / 64] := SetBit(bits[p / 64], p % 64);
      assert bits[..] == old(bits[..])[p / 64 := SetBit(old(bits[p / 64]), p % 64)];
    }

    method ReleasePage(p: nat)
      requires Valid() && p < pages
      modifies bits
      ensures Valid() && View() == old(View()).(taken := old(View()).taken - {p})
    {
      ChangeOnePage(bits[..], p);
      bits[p / 64] := ClearBit(bits[p / 64], p % 64);
      assert bits[..] == old(bits[..])[p / 64 := ClearBit(old(bits[p / 64]), p % 64)];
    }

    /** The search of the kernel's `big_alloc`: it finds what the naive search finds. */
    method Search(need: nat) returns (r: Option<nat>)
      requires Valid() && 0 < need
      ensures r == FirstFit(View(), need, 0)
    {
      ghost var v := View();
      FirstFitIsLowest(v, need, 0);
      if pages == 0 || need > pages {
        return None;
      }
      var i := 0;
      while i + need <= pages
        invariant forall k: nat :: k < i ==> !Fits(v, k, need)
        decreases pages - i
      {
        if i % 64 == 0 && bits[i / 64] == WORD_MAX {
          FullWord(bits[..], i);
          FullRunHasNoFit(v, need, i);
          i := i + 64;
          continue;
        }
        assert TakenBit(bits[..], i) <==> i in v.taken;
        if Bit(bits[i / 64], i % 64) {
          NoFitAcross(v, need, i, i + 1, i);
          i := i + 1;
          continue;
        }
        var run := 1;
        assert Run(i, 1) == {i};
        while run < need && !Bit(bits[(i + run) / 64], (i + run) % 64)
          invariant 1 <= run <= need
          invariant Run(i, run) !! v.taken
        {
          assert !TakenBit(bits[..], i + run);
          assert Run(i, run + 1) == Run(i, run) + {i + run};
          run := run + 1;
        }
        if run == need {
          assert Fits(v, i, need);
          return Some(i);
        }
        assert TakenBit(bits[..], i + run);
        NoFitAcross(v, need, i, i + run + 1, i + run);
        i := i + (run + 1);
      }
      return None;
    }

    /** Set the bits of a run. */
    method MarkRun(i: nat, need: nat)
      requires Valid() && i + need <= pages
      modifies bits
      ensures Valid() && View() == old(View()).(taken := old(View()).taken + Run(i, need))
    {
      assert Run(i, 0) == {};
      for j := i to i + need
        invariant Valid()
        invariant View() == old(View()).(taken := old(View()).taken + Run(i, j - i))
      {
        TakePage(j);
        assert Run(i, j + 1 - i) == Run(i, j - i) + {j};
      }
    }

    method Alloc(size: nat) returns (r: Option<nat>)
      requires Valid() && 0 < size
      modifies this, bits
      ensures Valid()
      ensures View() == AllocStep(old(View()), PagesFor(size)).0
      ensures r == match AllocStep(old(View()), PagesFor(size)).1
                   case None => None
                   case Some(i) => Some(base + i * PAGE_SIZE)
    {
      var need := (size + PAGE_SIZE - 1) / PAGE_SIZE;
      hide FirstFit, Run;
      var found := Search(need);
      FoundFits(View(), need);
      if found.None? {
        return None;
      }
      var i := found.value;
      MarkRun(i, need);
      used := used + need;
      if used > peak {
        peak := used;
      }
      return Some(base + i * PAGE_SIZE);
    }

    method Free(ptr: nat, size: nat)
      requires Valid() && base <= ptr
      modifies this, bits
      ensures Valid()
      ensures View() == FreeStep(old(View()), (ptr - old(base)) / PAGE_SIZE, PagesFor(size))
    {
      var need := (size + PAGE_SIZE - 1) / PAGE_SIZE;
      var first := (ptr - base) / PAGE_SIZE;
      ghost var v := View();
      var end := Min(first + need, pages);
      var j := first;
      assert Run(first, 0) == {};
      while j < end
        invariant first <= j
        invariant j <= end || end <= first == j
        invariant Valid()
        invariant View() == v.(taken := v.taken - Run(first, j - first))
      {
        ReleasePage(j);
        assert Run(first, j + 1 - first) == Run(first, j - first) + {j};
        j := j + 1;
      }
      used := if need <= used then used - need else 0;
      assert v.taken - Run(first, j - first) == FreeStep(v, first, need).taken;
    }
  }
}
