/** The per-CPU small-object caches and the list heap under them.

    Every block the list heap has handed out is in one place: with a client as a small
    block, with a client as a large block, or parked on the free list of one
    [cpu][class] slot.  `View` holds the free lists, the place of every block, and the
    heap's own account of what is out (`out`, address to bytes).  The heap behind the
    caches is any allocator that answers a request with nothing or with a fresh block;
    its answers are arguments of the operations. */
module SmallCaches {
  import opened Common

  const CLASS_SIZES: seq<nat> := [16, 32, 48, 64, 96, 128, 192, 256, 384, 512, 768, 1024, 1536, 2048]
  const NCLASS: nat := 14
  const SMALL_MAX: nat := 2048
  const SMALL_ALIGN: nat := 16
  const PCPU: nat := 8
  const SLOTS: nat := 112
  const BATCH: nat := 16
  const HIGH_WATER: nat := 64

  datatype Layout = Layout(size: nat, align: nat)

  // ---------- size classes ----------

  function FirstAtLeast(need: nat, from: nat): Option<nat>
    requires from <= NCLASS
    decreases NCLASS - from
  {
    if from == NCLASS then None
    else if CLASS_SIZES[from] >= need then Some(from)
    else FirstAtLeast(need, from + 1)
  }

  function ClassOf(l: Layout): Option<nat> {
    if l.size > SMALL_MAX || l.align > SMALL_ALIGN then None
    else FirstAtLeast(Max(l.size, 1), 0)
  }

  lemma {:induction false} FirstAtLeastIsFirst(need: nat, from: nat)
    requires from <= NCLASS
    ensures match FirstAtLeast(need, from)
            case None => forall c :: from <= c < NCLASS ==> CLASS_SIZES[c] < need
            case Some(c) => from <= c < NCLASS && need <= CLASS_SIZES[c]
                            && forall k :: from <= k < c ==> CLASS_SIZES[k] < need
    decreases NCLASS - from
  {
    if from < NCLASS {
      FirstAtLeastIsFirst(need, from + 1);
    }
  }

  /** A layout has a class exactly when it is small and weakly aligned, and its class
      is the tightest one that holds it. */
  lemma ClassIsTightest(l: Layout)
    ensures ClassOf(l).None? <==> l.size > SMALL_MAX || l.align > SMALL_ALIGN
    ensures ClassOf(l).Some? ==>
              var c := ClassOf(l).value;
              c < NCLASS && l.size <= CLASS_SIZES[c] && forall k :: 0 <= k < c ==> CLASS_SIZES[k] < Max(l.size, 1)
  {
    FirstAtLeastIsFirst(Max(l.size, 1), 0);
    assert CLASS_SIZES[13] == 2048;
  }

  /** The slot a core uses: its own, or slot 0 until the local APIC answers. */
  function CpuIndex(ready: bool, cpu: nat): (i: nat)
    ensures i < PCPU
    ensures ready && cpu < PCPU ==> i == cpu
  {
    if ready then cpu % PCPU else 0
  }

  /** One free list of the cache array: [cpu][class]. */
  datatype Slot = Slot(cpu: nat, class_: nat) {
    predicate Valid() {
      cpu < PCPU && class_ < NCLASS
    }

    function Index(): nat {
      cpu * NCLASS + class_
    }
  }

  // ---------- sums over maps ----------

  ghost function Sum<V>(m: map<nat, V>, f: V -> nat): nat
    decreases |m|
  {
    if m == map[] then 0
    else var k :| k in m; assert |m - {k}| < |m| by { Shrinks(m, k); } f(m[k]) + Sum(m - {k}, f)
  }

  lemma Shrinks<V>(m: map<nat, V>, k: nat)
    requires k in m
    ensures |m - {k}| == |m| - 1
  {
  }

  lemma {:induction false} SumRemove<V>(m: map<nat, V>, f: V -> nat, k: nat)
    requires k in m
    ensures Sum(m, f) == f(m[k]) + Sum(m - {k}, f)
    decreases |m|
  {
    var c :| c in m && Sum(m, f) == f(m[c]) + Sum(m - {c}, f);
    if c != k {
      Shrinks(m, c);
      Shrinks(m, k);
      SumRemove(m - {c}, f, k);
      SumRemove(m - {k}, f, c);
      assert m - {c} - {k} == m - {k} - {c};
    }
  }

  lemma SumPut<V>(m: map<nat, V>, f: V -> nat, k: nat, v: V)
    ensures Sum(m[k := v], f) + (if k in m then f(m[k]) else 0) == Sum(m, f) + f(v)
  {
    SumRemove(m[k := v], f, k);
    if k in m {
      SumRemove(m, f, k);
      assert m[k := v] - {k} == m - {k};
    } else {
      assert m[k := v] - {k} == m;
    }
  }

  // ---------- where every block is ----------

  datatype Place = Small(class_: nat) | Large(bytes: nat) | Parked(slot: Slot)

  /** `table` gives each class its block size. */
  datatype View = View(table: seq<nat>, lists: map<Slot, seq<nat>>, place: map<nat, Place>, out: map<nat, nat>)

  ghost predicate TableOk(table: seq<nat>) {
    |table| == NCLASS && forall c :: 0 <= c < NCLASS ==> 0 < table[c]
  }

  ghost predicate AllSlots(lists: map<Slot, seq<nat>>) {
    forall s: Slot :: s in lists <==> s.Valid()
  }

  ghost predicate Shape(v: View) {
    TableOk(v.table) && AllSlots(v.lists)
  }

  ghost predicate PlaceOk(a: Place) {
    match a
    case Small(c) => c < NCLASS
    case Large(n) => 0 < n
    case Parked(s) => s.Valid()
  }

  ghost function SizeOf(table: seq<nat>, a: Place): nat
    requires TableOk(table) && PlaceOk(a)
  {
    match a
    case Small(c) => table[c]
    case Large(n) => n
    case Parked(s) => table[s.class_]
  }

  /** What a place counts for in the bytes clients hold. */
  ghost function Held(table: seq<nat>): Place -> nat
    requires TableOk(table)
  {
    (a: Place) => if a.Parked? || !PlaceOk(a) then 0 else SizeOf(table, a)
  }

  ghost function Bytes(): nat -> nat {
    n => n
  }

  ghost function NthSlot(n: nat): (s: Slot)
    requires n < SLOTS
    ensures s.Valid() && s.Index() == n
  {
    Slot(n / NCLASS, n % NCLASS)
  }

  /** Bytes parked on the first n lists, CPU by CPU. */
  ghost function ParkedBytes(table: seq<nat>, lists: map<Slot, seq<nat>>, n: nat): nat
    requires TableOk(table) && AllSlots(lists) && n <= SLOTS
  {
    if n == 0 then 0
    else var s := NthSlot(n - 1); ParkedBytes(table, lists, n - 1) + |lists[s]| * table[s.class_]
  }

  ghost predicate Distinct(l: seq<nat>) {
    forall i, j :: 0 <= i < j < |l| ==> l[i] != l[j]
  }

  /** The heap's own promise: blocks it has out do not overlap. */
  ghost predicate HeapOk(out: map<nat, nat>) {
    && (forall p :: p in out ==> 0 < p && 0 < out[p])
    && (forall p, q :: p in out && q in out && p < q ==> p + out[p] <= q)
  }

  /** A block is on a list exactly when its place says so, and only once. */
  ghost predicate ListsOk(v: View) {
    && Shape(v)
    && (forall s :: s in v.lists ==> Distinct(v.lists[s]))
    && (forall s, p :: s in v.lists && p in v.lists[s] ==> p in v.place && v.place[p] == Parked(s))
    && (forall p :: p in v.place && v.place[p].Parked? ==>
          v.place[p].slot in v.lists && p in v.lists[v.place[p].slot])
  }

  /** Every block out has a place of its own size; small blocks are aligned. */
  ghost predicate PlacesOk(v: View) {
    && TableOk(v.table)
    && v.place.Keys == v.out.Keys
    && (forall p :: p in v.place ==> PlaceOk(v.place[p]) && v.out[p] == SizeOf(v.table, v.place[p]))
    && (forall p :: p in v.place && !v.place[p].Large? ==> p % SMALL_ALIGN == 0)
  }

  ghost predicate Balanced(v: View)
    requires Shape(v)
  {
    Sum(v.out, Bytes()) == Sum(v.place, Held(v.table)) + ParkedBytes(v.table, v.lists, SLOTS)
  }

  ghost predicate Partition(v: View) {
    HeapOk(v.out) && ListsOk(v) && PlacesOk(v) && Balanced(v)
  }

  ghost predicate Bounded(v: View) {
    forall s :: s in v.lists ==> |v.lists[s]| <= HIGH_WATER
  }

  /** A block of `bytes` the heap may answer a request with: it meets no block out. */
  ghost predicate Fresh(out: map<nat, nat>, p: nat, bytes: nat) {
    && 0 < p && 0 < bytes
    && forall q :: q in out ==> q + out[q] <= p || p + bytes <= q
  }

  // ---------- the four ways a small block moves ----------

  /** The heap hands a block to the slot's list. */
  ghost function Grow(v: View, s: Slot, p: nat): View
    requires Shape(v) && s.Valid()
  {
    v.(lists := v.lists[s := [p] + v.lists[s]], place := v.place[p := Parked(s)], out := v.out[p := v.table[s.class_]])
  }

  /** The slot's first block goes to a client. */
  ghost function Hand(v: View, s: Slot): View
    requires s in v.lists && v.lists[s] != []
  {
    v.(lists := v.lists[s := v.lists[s][1..]], place := v.place[v.lists[s][0] := Small(s.class_)])
  }

  /** A client's block goes to the front of the slot's list. */
  ghost function Park(v: View, s: Slot, p: nat): View
    requires s in v.lists
  {
    v.(lists := v.lists[s := [p] + v.lists[s]], place := v.place[p := Parked(s)])
  }

  /** The slot's first block goes back to the heap. */
  ghost function Drop(v: View, s: Slot): View
    requires s in v.lists && v.lists[s] != []
  {
    var p := v.lists[s][0];
    v.(lists := v.lists[s := v.lists[s][1..]], place := v.place - {p}, out := v.out - {p})
  }

  lemma {:induction false} ParkedUpdate(table: seq<nat>, lists: map<Slot, seq<nat>>, s: Slot, l: seq<nat>, n: nat)
    requires TableOk(table) && AllSlots(lists) && s.Valid() && n <= SLOTS
    ensures ParkedBytes(table, lists[s := l], n) + (if s.Index() < n then |lists[s]| * table[s.class_] else 0)
         == ParkedBytes(table, lists, n) + (if s.Index() < n then |l| * table[s.class_] else 0)
  {
    if n > 0 {
      ParkedUpdate(table, lists, s, l, n - 1);
      assert NthSlot(n - 1) == s <==> s.Index() == n - 1;
    }
  }

  lemma PushParks(table: seq<nat>, lists: map<Slot, seq<nat>>, s: Slot, p: nat)
    requires TableOk(table) && AllSlots(lists) && s.Valid()
    ensures ParkedBytes(table, lists[s := [p] + lists[s]], SLOTS) == ParkedBytes(table, lists, SLOTS) + table[s.class_]
  {
    ParkedUpdate(table, lists, s, [p] + lists[s], SLOTS);
    assert (|lists[s]| + 1) * table[s.class_] == |lists[s]| * table[s.class_] + table[s.class_];
  }

  lemma PopUnparks(table: seq<nat>, lists: map<Slot, seq<nat>>, s: Slot)
    requires TableOk(table) && AllSlots(lists) && s.Valid() && lists[s] != []
    ensures ParkedBytes(table, lists[s := lists[s][1..]], SLOTS) + table[s.class_] == ParkedBytes(table, lists, SLOTS)
  {
    ParkedUpdate(table, lists, s, lists[s][1..], SLOTS);
    assert (|lists[s]| - 1) * table[s.class_] + table[s.class_] == |lists[s]| * table[s.class_];
  }

  lemma PushMembers(l: seq<nat>, p: nat)
    requires Distinct(l) && p !in l
    ensures Distinct([p] + l)
    ensures forall q :: q in [p] + l <==> q == p || q in l
  {
  }

  lemma PopMembers(l: seq<nat>)
    requires Distinct(l) && l != []
    ensures Distinct(l[1..])
    ensures forall q :: q in l[1..] <==> q in l && q != l[0]
  {
  }

  lemma PushKeepsLists(v: View, w: View, s: Slot, p: nat)
    requires ListsOk(v) && s.Valid() && (p in v.place ==> !v.place[p].Parked?)
    requires w.table == v.table && w.lists == v.lists[s := [p] + v.lists[s]] && w.place == v.place[p := Parked(s)]
    ensures ListsOk(w)
  {
    assert p !in v.lists[s];
    PushMembers(v.lists[s], p);
  }

  lemma PopKeepsLists(v: View, w: View, s: Slot, p: nat)
    requires ListsOk(v) && s.Valid() && v.lists[s] != [] && p == v.lists[s][0]
    requires w.table == v.table && w.lists == v.lists[s := v.lists[s][1..]]
    requires forall q :: q != p ==> (q in w.place <==> q in v.place) && (q in w.place ==> w.place[q] == v.place[q])
    requires p in w.place ==> !w.place[p].Parked?
    ensures ListsOk(w)
  {
    assert p in v.lists[s];
    PopMembers(v.lists[s]);
    forall t, q | t in w.lists && q in w.lists[t]
      ensures q in w.place && w.place[q] == Parked(t)
    {
      assert q in v.lists[t];
      assert v.place[q] == Parked(t) && v.place[p] == Parked(s);
      assert q != p;
    }
  }

  lemma HeapGrows(out: map<nat, nat>, p: nat, bytes: nat)
    requires HeapOk(out) && Fresh(out, p, bytes)
    ensures p !in out && HeapOk(out[p := bytes])
  {
  }

  lemma GrowPlaces(v: View, s: Slot, p: nat)
    requires HeapOk(v.out) && PlacesOk(v) && Shape(v) && s.Valid()
    requires Fresh(v.out, p, v.table[s.class_]) && p % SMALL_ALIGN == 0
    ensures HeapOk(Grow(v, s, p).out) && PlacesOk(Grow(v, s, p)) && p !in v.place
  {
    hide HeapOk, Fresh;
    HeapGrows(v.out, p, v.table[s.class_]);
  }

  lemma GrowBalanced(v: View, s: Slot, p: nat)
    requires Shape(v) && Balanced(v) && s.Valid() && p !in v.out && p !in v.place
    ensures Shape(Grow(v, s, p)) && Balanced(Grow(v, s, p))
  {
    PushParks(v.table, v.lists, s, p);
    SumPut(v.out, Bytes(), p, v.table[s.class_]);
    SumPut(v.place, Held(v.table), p, Parked(s));
  }

  lemma PartitionShape(v: View)
    requires Partition(v)
    ensures Shape(v) && v.place.Keys == v.out.Keys
  {
  }

  /** The first block of a list is parked there and has the size of its class. */
  lemma HeadParked(v: View, s: Slot)
    requires Partition(v) && s.Valid() && v.lists[s] != []
    ensures var p := v.lists[s][0];
            p in v.place && v.place[p] == Parked(s) && p in v.out && v.out[p] == v.table[s.class_]
  {
    assert v.lists[s][0] in v.lists[s];
  }

  lemma GrowKeeps(v: View, s: Slot, p: nat)
    requires Partition(v) && s.Valid() && Fresh(v.out, p, v.table[s.class_]) && p % SMALL_ALIGN == 0
    ensures Partition(Grow(v, s, p)) && p !in v.place
  {
    PartitionShape(v);
    hide HeapOk, ListsOk, PlacesOk, Balanced, Fresh, Shape;
    GrowPlaces(v, s, p);
    PushKeepsLists(v, Grow(v, s, p), s, p);
    GrowBalanced(v, s, p);
  }

  lemma HandLists(v: View, s: Slot)
    requires ListsOk(v) && s.Valid() && v.lists[s] != []
    ensures ListsOk(Hand(v, s))
  {
    assert v.lists[s][0] in v.lists[s];
    PopKeepsLists(v, Hand(v, s), s, v.lists[s][0]);
  }

  lemma HandPlaces(v: View, s: Slot)
    requires Shape(v) && PlacesOk(v) && s.Valid() && v.lists[s] != []
    requires v.lists[s][0] in v.place && v.place[v.lists[s][0]] == Parked(s)
    ensures PlacesOk(Hand(v, s))
  {
  }

  lemma HandBalanced(v: View, s: Slot)
    requires Shape(v) && Balanced(v) && s.Valid() && v.lists[s] != []
    requires v.lists[s][0] in v.place && v.place[v.lists[s][0]].Parked?
    ensures Shape(Hand(v, s)) && Balanced(Hand(v, s))
  {
    PopUnparks(v.table, v.lists, s);
    SumPut(v.place, Held(v.table), v.lists[s][0], Small(s.class_));
  }

  lemma HandKeeps(v: View, s: Slot)
    requires Partition(v) && s.Valid() && v.lists[s] != []
    ensures Partition(Hand(v, s))
  {
    PartitionShape(v);
    hide HeapOk, ListsOk, PlacesOk, Balanced;
    HeadParked(v, s);
    HandLists(v, s);
    HandPlaces(v, s);
    HandBalanced(v, s);
  }

  lemma ParkBalanced(v: View, s: Slot, p: nat)
    requires Shape(v) && Balanced(v) && s.Valid() && p in v.place && v.place[p] == Small(s.class_)
    ensures Shape(Park(v, s, p)) && Balanced(Park(v, s, p))
  {
    PushParks(v.table, v.lists, s, p);
    SumPut(v.place, Held(v.table), p, Parked(s));
  }

  lemma ParkKeeps(v: View, s: Slot, p: nat)
    requires Partition(v) && s.Valid() && p in v.place && v.place[p] == Small(s.class_)
    ensures Partition(Park(v, s, p))
  {
    PartitionShape(v);
    hide HeapOk, ListsOk, PlacesOk, Balanced;
    PushKeepsLists(v, Park(v, s, p), s, p);
    ParkPlaces(v, s, p);
    ParkBalanced(v, s, p);
  }

  lemma ParkPlaces(v: View, s: Slot, p: nat)
    requires Shape(v) && PlacesOk(v) && s.Valid() && p in v.place && v.place[p] == Small(s.class_)
    ensures PlacesOk(Park(v, s, p))
  {
  }

  lemma DropLists(v: View, s: Slot)
    requires ListsOk(v) && s.Valid() && v.lists[s] != []
    ensures ListsOk(Drop(v, s))
  {
    assert v.lists[s][0] in v.lists[s];
    PopKeepsLists(v, Drop(v, s), s, v.lists[s][0]);
  }

  lemma WithoutPlaces(v: View, p: nat)
    requires HeapOk(v.out) && PlacesOk(v)
    ensures HeapOk(v.out - {p}) && PlacesOk(v.(place := v.place - {p}, out := v.out - {p}))
  {
  }

  lemma DropBalanced(v: View, s: Slot)
    requires Shape(v) && Balanced(v) && s.Valid() && v.lists[s] != []
    requires var p := v.lists[s][0];
             p in v.place && v.place[p].Parked? && p in v.out && v.out[p] == v.table[s.class_]
    ensures Shape(Drop(v, s)) && Balanced(Drop(v, s))
  {
    PopUnparks(v.table, v.lists, s);
    SumRemove(v.out, Bytes(), v.lists[s][0]);
    SumRemove(v.place, Held(v.table), v.lists[s][0]);
  }

  lemma DropKeeps(v: View, s: Slot)
    requires Partition(v) && s.Valid() && v.lists[s] != []
    ensures Partition(Drop(v, s))
  {
    PartitionShape(v);
    HeadParked(v, s);
    DropLists(v, s);
    DropPlaces(v, s);
    hide HeapOk, ListsOk, PlacesOk, Balanced;
    DropBalanced(v, s);
  }

  lemma DropPlaces(v: View, s: Slot)
    requires HeapOk(v.out) && PlacesOk(v) && s in v.lists && v.lists[s] != []
    ensures HeapOk(Drop(v, s).out) && PlacesOk(Drop(v, s))
  {
    WithoutPlaces(v, v.lists[s][0]);
    assert PlacesOk(v.(place := v.place - {v.lists[s][0]}, out := v.out - {v.lists[s][0]}));
  }

  // ---------- what a call does ----------

  /** The answers are ones a heap may give to requests of the slot's class, in order;
      nothing is asked after the first refusal. */
  ghost predicate AnswersOk(v: View, s: Slot, answers: seq<Option<nat>>)
    requires Shape(v) && s.Valid()
    decreases |answers|
  {
    answers == [] || answers[0].None?
    || (Fresh(v.out, answers[0].value, v.table[s.class_]) && answers[0].value % SMALL_ALIGN == 0
        && AnswersOk(Grow(v, s, answers[0].value), s, answers[1..]))
  }

  ghost function Refill(v: View, s: Slot, answers: seq<Option<nat>>): (w: View)
    requires Shape(v) && s.Valid()
    ensures Shape(w) && w.table == v.table
    ensures |v.lists[s]| <= |w.lists[s]| <= |v.lists[s]| + |answers|
    ensures forall t :: t in v.lists && t != s ==> w.lists[t] == v.lists[t]
    decreases |answers|
  {
    if answers == [] || answers[0].None? then v
    else Refill(Grow(v, s, answers[0].value), s, answers[1..])
  }

  ghost function AllocStep(v: View, s: Slot, answers: seq<Option<nat>>): (View, Option<nat>)
    requires Shape(v) && s.Valid()
  {
    var w := if v.lists[s] == [] then Refill(v, s, answers) else v;
    if w.lists[s] == [] then (w, None) else (Hand(w, s), Some(w.lists[s][0]))
  }

  ghost function DropMany(v: View, s: Slot, n: nat): (w: View)
    requires s in v.lists && n <= |v.lists[s]|
    ensures w.table == v.table
    ensures w.lists == v.lists[s := v.lists[s][n..]]
    decreases n
  {
    if n == 0 then v else DropMany(Drop(v, s), s, n - 1)
  }

  ghost function FreeStep(v: View, s: Slot, p: nat): View
    requires s in v.lists
  {
    var w := Park(v, s, p);
    if |w.lists[s]| > HIGH_WATER then DropMany(w, s, BATCH) else w
  }

  /** Blocks with clients keep their places; nothing else ends up with a client. */
  ghost predicate SameClients(v: View, w: View) {
    && (forall p :: p in v.place && !v.place[p].Parked? ==> p in w.place && w.place[p] == v.place[p])
    && (forall p :: p in w.place && !w.place[p].Parked? ==> p in v.place && v.place[p] == w.place[p])
  }

  lemma {:induction false} RefillKeeps(v: View, s: Slot, answers: seq<Option<nat>>)
    requires Partition(v) && s.Valid() && AnswersOk(v, s, answers)
    ensures Partition(Refill(v, s, answers))
    ensures SameClients(v, Refill(v, s, answers))
    decreases |answers|
  {
    PartitionShape(v);
    hide Partition, Fresh, SameClients, Grow;
    if answers == [] || answers[0].None? {
      SameAgain(v);
    } else {
      var p := answers[0].value;
      RefillNext(v, s, answers);
      GrowKeeps(v, s, p);
      RefillKeeps(Grow(v, s, p), s, answers[1..]);
      GrowSameClients(v, s, p);
      SameTwice(v, Grow(v, s, p), Refill(v, s, answers));
    }
  }

  lemma GrowSameClients(v: View, s: Slot, p: nat)
    requires Shape(v) && s.Valid() && p !in v.place
    ensures SameClients(v, Grow(v, s, p))
  {
  }

  lemma SameTwice(u: View, v: View, w: View)
    requires SameClients(u, v) && SameClients(v, w)
    ensures SameClients(u, w)
  {
  }

  lemma DropSameClients(v: View, s: Slot)
    requires Shape(v) && Partition(v) && s.Valid() && v.lists[s] != []
    ensures SameClients(v, Drop(v, s))
  {
    hide Partition;
    HeadParked(v, s);
  }

  lemma {:induction false} DropManyKeeps(v: View, s: Slot, n: nat)
    requires Shape(v) && Partition(v) && s.Valid() && n <= |v.lists[s]|
    ensures Partition(DropMany(v, s, n))
    ensures SameClients(v, DropMany(v, s, n))
    decreases n
  {
    hide Partition;
    if n > 0 {
      DropKeeps(v, s);
      DropManyKeeps(Drop(v, s), s, n - 1);
      DropSameClients(v, s);
    }
  }

  /** What the refill leaves to hand out, and when there is nothing. */
  lemma RefillEmpty(v: View, s: Slot, answers: seq<Option<nat>>)
    requires Shape(v) && s.Valid() && v.lists[s] == [] && answers != []
    ensures Refill(v, s, answers).lists[s] == [] <==> answers[0].None?
    ensures answers[0].None? ==> Refill(v, s, answers) == v
  {
  }

  /** A small allocation keeps the partition; what it returns was with no client, is
      as large as its class and is aligned; it fails only when the slot is empty and
      the heap refuses the first request. */
  lemma AllocKeeps(v: View, s: Slot, answers: seq<Option<nat>>)
    requires Shape(v) && Partition(v) && Bounded(v) && s.Valid() && |answers| == BATCH && AnswersOk(v, s, answers)
    ensures var (w, r) := AllocStep(v, s, answers);
            && Shape(w) && Partition(w) && Bounded(w)
            && (r.None? <==> v.lists[s] == [] && answers[0].None?)
            && (r.None? ==> w == v)
            && (r.Some? ==> (r.value in v.place ==> v.place[r.value].Parked?)
                            && r.value in w.place && w.place[r.value] == Small(s.class_)
                            && SameClients(v, w.(place := w.place[r.value := Parked(s)])))
  {
    hide Partition, SameClients, Refill, AnswersOk, Hand;
    var w := if v.lists[s] == [] then Refill(v, s, answers) else v;
    SameAgain(v);
    if v.lists[s] == [] {
      RefillKeeps(v, s, answers);
      RefillEmpty(v, s, answers);
    }
    if w.lists[s] != [] {
      HeadParked(w, s);
      HandKeeps(w, s);
      HandShrinks(w, s);
      HandSameClients(v, w, s);
    }
  }

  lemma SameAgain(v: View)
    ensures SameClients(v, v)
  {
  }

  lemma HandShrinks(w: View, s: Slot)
    requires Shape(w) && s.Valid() && w.lists[s] != []
    ensures Shape(Hand(w, s)) && Hand(w, s).table == w.table
    ensures Hand(w, s).lists == w.lists[s := w.lists[s][1..]] && Hand(w, s).out == w.out
  {
  }

  /** Of the blocks with clients only the one handed out is new. */
  lemma HandSameClients(v: View, w: View, s: Slot)
    requires SameClients(v, w) && s in w.lists && w.lists[s] != []
    requires w.lists[s][0] in w.place && w.place[w.lists[s][0]] == Parked(s)
    ensures var p, h := w.lists[s][0], Hand(w, s);
            && (p in v.place ==> v.place[p].Parked?) && p in h.place && h.place[p] == Small(s.class_)
            && SameClients(v, h.(place := h.place[p := Parked(s)]))
  {
  }

  /** A small free by any core keeps the partition and the bound on every list; the
      flush leaves HIGH_WATER + 1 - BATCH blocks behind. */
  lemma FreeKeeps(v: View, s: Slot, p: nat)
    requires Shape(v) && Partition(v) && Bounded(v) && s.Valid() && p in v.place && v.place[p] == Small(s.class_)
    ensures var w := FreeStep(v, s, p);
            && Shape(w) && Partition(w) && Bounded(w)
            && (p in w.place ==> w.place[p].Parked?)
            && SameClients(v.(place := v.place[p := Parked(s)]), w)
            && |w.lists[s]| == if |v.lists[s]| == HIGH_WATER then HIGH_WATER + 1 - BATCH else |v.lists[s]| + 1
  {
    hide Partition, DropMany;
    var w := Park(v, s, p);
    ParkKeeps(v, s, p);
    if |w.lists[s]| > HIGH_WATER {
      DropManyKeeps(w, s, BATCH);
    }
  }

  // ---------- which blocks move ----------

  /** The blocks the heap grants before it first refuses, the last one in front. */
  ghost function Granted(answers: seq<Option<nat>>): seq<nat>
    decreases |answers|
  {
    if answers == [] || answers[0].None? then [] else Granted(answers[1..]) + [answers[0].value]
  }

  lemma {:induction false} RefillLists(v: View, s: Slot, answers: seq<Option<nat>>)
    requires Shape(v) && s.Valid()
    ensures Refill(v, s, answers).lists == v.lists[s := Granted(answers) + v.lists[s]]
    decreases |answers|
  {
    if answers != [] && answers[0].Some? {
      var p := answers[0].value;
      GrowAdds(v, s, p);
      RefillLists(Grow(v, s, p), s, answers[1..]);
      hide Shape, Grow;
      assert Granted(answers[1..]) + ([p] + v.lists[s]) == Granted(answers) + v.lists[s];
    } else {
      assert Granted(answers) + v.lists[s] == v.lists[s];
    }
  }

  lemma {:induction false} RefillOut(v: View, s: Slot, answers: seq<Option<nat>>, p: nat)
    requires Shape(v) && s.Valid()
    ensures p in Refill(v, s, answers).out <==> p in v.out || p in Granted(answers)
    decreases |answers|
  {
    if answers != [] && answers[0].Some? {
      GrowAdds(v, s, answers[0].value);
      RefillOut(Grow(v, s, answers[0].value), s, answers[1..], p);
    }
  }

  lemma GrowAdds(v: View, s: Slot, p: nat)
    requires Shape(v) && s.Valid()
    ensures Shape(Grow(v, s, p)) && Grow(v, s, p).lists == v.lists[s := [p] + v.lists[s]]
    ensures forall q: nat :: q in Grow(v, s, p).out <==> q in v.out || q == p
  {
  }

  /** What there is to hand out: the core's list, or what the heap grants of a batch when that has none. */
  ghost function OnOffer(v: View, s: Slot, answers: seq<Option<nat>>): seq<nat>
    requires Shape(v) && s.Valid()
  {
    if v.lists[s] == [] then Granted(answers) else v.lists[s]
  }

  /** An allocation takes the first of these and leaves the others on the core's list; no other list changes. */
  lemma AllocMoves(v: View, s: Slot, answers: seq<Option<nat>>)
    requires Shape(v) && s.Valid()
    ensures var (w, r) := AllocStep(v, s, answers);
            var l := OnOffer(v, s, answers);
            if l == [] then r == None && w == v else r == Some(l[0]) && w.lists == v.lists[s := l[1..]]
  {
    RefillLists(v, s, answers);
    NothingGranted(v, s, answers);
    hide Refill, Granted, Hand;
    var w := if v.lists[s] == [] then Refill(v, s, answers) else v;
    if v.lists[s] == [] {
      assert Granted(answers) + v.lists[s] == Granted(answers);
    }
    if w.lists[s] != [] {
      HandShrinks(w, s);
    }
  }

  /** The heap is asked only when the list is empty, and then has out exactly what it granted. */
  lemma AllocAsks(v: View, s: Slot, answers: seq<Option<nat>>, p: nat)
    requires Shape(v) && s.Valid()
    ensures p in AllocStep(v, s, answers).0.out <==> p in v.out || (v.lists[s] == [] && p in Granted(answers))
  {
    RefillOut(v, s, answers, p);
    hide Refill, Granted, Hand;
    var w := if v.lists[s] == [] then Refill(v, s, answers) else v;
    if w.lists[s] != [] {
      HandShrinks(w, s);
    }
  }

  lemma NothingGranted(v: View, s: Slot, answers: seq<Option<nat>>)
    requires Shape(v) && s.Valid()
    ensures Granted(answers) == [] ==> Refill(v, s, answers) == v
  {
  }

  lemma {:induction false} DropManyGives(v: View, s: Slot, n: nat)
    requires s in v.lists && n <= |v.lists[s]|
    ensures forall p :: p in DropMany(v, s, n).out <==> p in v.out && p !in v.lists[s][..n]
    decreases n
  {
    if n > 0 {
      var w := Drop(v, s);
      DropManyGives(w, s, n - 1);
      var l := v.lists[s];
      assert l[..n] == [l[0]] + w.lists[s][..n - 1];
    }
  }

  /** A freed block goes to the front of the core's list, unless that holds 64 already: then it and the 15
      in front go back to the heap. No other list changes. */
  lemma FreeMoves(v: View, s: Slot, p: nat)
    requires Shape(v) && Bounded(v) && s.Valid()
    ensures var w := FreeStep(v, s, p);
            if |v.lists[s]| < 64 then w.lists == v.lists[s := [p] + v.lists[s]] && w.out == v.out
            else
              && w.lists == v.lists[s := v.lists[s][15..]]
              && forall q :: q in w.out <==> q in v.out && q != p && q !in v.lists[s][..15]
  {
    hide DropMany;
    var u := Park(v, s, p);
    if |u.lists[s]| > HIGH_WATER {
      DropManyGives(u, s, BATCH);
      var l := v.lists[s];
      assert u.lists[s][BATCH..] == l[15..];
      assert u.lists[s][..BATCH] == [p] + l[..15];
    }
  }

  // ---------- large blocks go straight to the heap ----------

  ghost function LargeAlloc(v: View, p: nat, bytes: nat): View {
    v.(place := v.place[p := Large(bytes)], out := v.out[p := bytes])
  }

  ghost function LargeFree(v: View, p: nat): View {
    v.(place := v.place - {p}, out := v.out - {p})
  }

  lemma LargeAllocKeeps(v: View, p: nat, bytes: nat)
    requires Partition(v) && Fresh(v.out, p, bytes)
    ensures Partition(LargeAlloc(v, p, bytes)) && p !in v.place
  {
    PartitionShape(v);
    hide HeapOk, ListsOk, PlacesOk, Balanced;
    HeapGrows(v.out, p, bytes);
    LargeAllocLists(v, p, bytes);
    LargeAllocPlaces(v, p, bytes);
    LargeAllocBalanced(v, p, bytes);
  }

  lemma LargeAllocPlaces(v: View, p: nat, bytes: nat)
    requires PlacesOk(v) && 0 < bytes
    ensures PlacesOk(LargeAlloc(v, p, bytes))
  {
  }

  lemma LargeAllocLists(v: View, p: nat, bytes: nat)
    requires ListsOk(v) && p !in v.place
    ensures ListsOk(LargeAlloc(v, p, bytes))
  {
  }

  lemma LargeAllocBalanced(v: View, p: nat, bytes: nat)
    requires Shape(v) && Balanced(v) && p !in v.out && p !in v.place && 0 < bytes
    ensures Balanced(LargeAlloc(v, p, bytes))
  {
    SumPut(v.out, Bytes(), p, bytes);
    SumPut(v.place, Held(v.table), p, Large(bytes));
  }

  lemma LargeFreeKeeps(v: View, p: nat)
    requires Partition(v) && p in v.place && v.place[p].Large?
    ensures Partition(LargeFree(v, p))
  {
    PartitionShape(v);
    LargeBalance(v, p);
    WithoutPlaces(v, p);
    hide HeapOk, ListsOk, PlacesOk, Balanced;
    LargeFreeLists(v, p);
    LargeFreeBalanced(v, p);
  }

  lemma LargeBalance(v: View, p: nat)
    requires PlacesOk(v) && p in v.place && v.place[p].Large?
    ensures p in v.out && v.out[p] == v.place[p].bytes
  {
  }

  lemma LargeFreeLists(v: View, p: nat)
    requires ListsOk(v) && p in v.place && v.place[p].Large?
    ensures ListsOk(LargeFree(v, p))
  {
  }

  lemma LargeFreeBalanced(v: View, p: nat)
    requires Shape(v) && Balanced(v) && p in v.place && v.place[p].Large? && p in v.out && v.out[p] == v.place[p].bytes
    ensures Shape(LargeFree(v, p)) && Balanced(LargeFree(v, p))
  {
    SumRemove(v.out, Bytes(), p);
    SumRemove(v.place, Held(v.table), p);
  }

  // ---------- the lists as links in memory ----------

  datatype FreeList = FreeList(head: nat, count: nat)

  function Load(mem: map<nat, nat>, a: nat): nat {
    if a in mem then mem[a] else 0
  }

  /** The first n blocks reached from `head` through the word at each block's start. */
  ghost function Chain(mem: map<nat, nat>, head: nat, n: nat): (c: seq<nat>)
    ensures |c| == n
    decreases n
  {
    if n == 0 then [] else [head] + Chain(mem, Load(mem, head), n - 1)
  }

  /** Null comes after exactly n blocks. */
  ghost predicate Linked(mem: map<nat, nat>, head: nat, n: nat)
    decreases n
  {
    if n == 0 then head == 0 else head != 0 && Linked(mem, Load(mem, head), n - 1)
  }

  lemma {:induction false} ChainFrame(mem: map<nat, nat>, a: nat, w: nat, head: nat, n: nat)
    requires a !in Chain(mem, head, n)
    ensures Chain(mem[a := w], head, n) == Chain(mem, head, n)
    ensures Linked(mem[a := w], head, n) == Linked(mem, head, n)
    decreases n
  {
    if n > 0 {
      assert head in Chain(mem, head, n);
      ChainFrame(mem, a, w, Load(mem, head), n - 1);
    }
  }

  lemma NotListed(v: View, p: nat, bytes: nat)
    requires Partition(v) && Fresh(v.out, p, bytes)
    ensures p != 0 && forall s :: s in v.lists ==> p !in v.lists[s]
  {
    assert p !in v.out;
  }

  lemma ClientNotListed(v: View, p: nat)
    requires Partition(v) && p in v.place && !v.place[p].Parked?
    ensures p != 0 && forall s :: s in v.lists ==> p !in v.lists[s]
  {
    assert p in v.out;
  }

  lemma OwnBytesNotListed(v: View, p: nat, off: nat)
    requires Partition(v) && p in v.place && !v.place[p].Parked? && off < SizeOf(v.table, v.place[p])
    ensures forall s :: s in v.lists ==> p + off !in v.lists[s]
  {
    forall s, q | s in v.lists && q in v.lists[s]
      ensures q != p + off
    {
      assert q in v.place && q in v.out && p in v.out && q != p;
    }
  }

  lemma ParkedBalance(v: View)
    requires Shape(v) && Partition(v)
    ensures ParkedBytes(v.table, v.lists, 0) == 0
    ensures ParkedBytes(v.table, v.lists, SLOTS) + Sum(v.place, Held(v.table)) == Sum(v.out, Bytes())
  {
  }

  lemma ParkedNext(table: seq<nat>, lists: map<Slot, seq<nat>>, cpu: nat, k: nat)
    requires TableOk(table) && AllSlots(lists) && cpu < PCPU && k < NCLASS
    ensures cpu * NCLASS + k + 1 <= SLOTS
    ensures ParkedBytes(table, lists, cpu * NCLASS + k + 1)
         == ParkedBytes(table, lists, cpu * NCLASS + k) + |lists[Slot(cpu, k)]| * table[k]
  {
    assert NthSlot(cpu * NCLASS + k) == Slot(cpu, k);
  }

  lemma DropNext(v: View, s: Slot, n: nat)
    requires s in v.lists && 0 < n <= |v.lists[s]|
    ensures DropMany(v, s, n) == DropMany(Drop(v, s), s, n - 1)
  {
  }

  lemma DropNone(v: View, s: Slot)
    requires s in v.lists
    ensures DropMany(v, s, 0) == v
  {
  }

  lemma RefillNext(v: View, s: Slot, answers: seq<Option<nat>>)
    requires Shape(v) && s.Valid() && answers != [] && answers[0].Some? && AnswersOk(v, s, answers)
    ensures var p := answers[0].value;
            Fresh(v.out, p, v.table[s.class_]) && p % SMALL_ALIGN == 0
            && AnswersOk(Grow(v, s, p), s, answers[1..])
            && Refill(v, s, answers) == Refill(Grow(v, s, p), s, answers[1..])
  {
  }

  lemma RefillEnds(v: View, s: Slot, answers: seq<Option<nat>>)
    requires Shape(v) && s.Valid() && (answers == [] || answers[0].None?)
    ensures Refill(v, s, answers) == v
  {
  }

  ghost function SlotSet(): (r: set<Slot>)
    ensures forall s: Slot :: s in r <==> s.Valid()
  {
    set cpu, c | 0 <= cpu < PCPU && 0 <= c < NCLASS :: Slot(cpu, c)
  }

  class Caches {
    const table: seq<nat>
    const cells: array2<FreeList>
    var mem: map<nat, nat>
    ghost var place: map<nat, Place>
    ghost var out: map<nat, nat>

    ghost predicate Wired()
      reads this, cells
    {
      && TableOk(table)
      && cells.Length0 == PCPU && cells.Length1 == NCLASS
      && forall i, c :: 0 <= i < PCPU && 0 <= c < NCLASS ==> Linked(mem, cells[i, c].head, cells[i, c].count)
    }

    ghost function Lists(): (m: map<Slot, seq<nat>>)
      requires Wired()
      reads this, cells
      ensures AllSlots(m)
    {
      map s | s in SlotSet() :: Chain(mem, cells[s.cpu, s.class_].head, cells[s.cpu, s.class_].count)
    }

    ghost function Abs(): (v: View)
      requires Wired()
      reads this, cells
      ensures Shape(v)
    {
      View(table, Lists(), place, out)
    }

    ghost predicate Valid()
      reads this, cells
    {
      Wired() && Partition(Abs()) && Bounded(Abs())
    }

    constructor ()
      ensures Valid() && fresh(cells) && table == CLASS_SIZES
      ensures Abs().place == map[] && Abs().out == map[]
    {
      table := CLASS_SIZES;
      cells := new FreeList[PCPU, NCLASS]((_, _) => FreeList(0, 0));
      mem := map[];
      place := map[];
      out := map[];
      new;
      EmptyParked(table, Lists(), SLOTS);
    }

    /** Write the link word of `p` and make it the slot's head. */
    method Push(s: Slot, p: nat)
      requires Wired() && s.Valid() && p != 0 && forall t :: t in Lists() ==> p !in Lists()[t]
      modifies this`mem, cells
      ensures Wired()
      ensures Lists() == old(Lists())[s := [p] + old(Lists())[s]]
    {
      ghost var before := Lists();
      ghost var m := mem;
      var fl := cells[s.cpu, s.class_];
      forall t: Slot | t.Valid()
        ensures var f := cells[t.cpu, t.class_];
                Chain(m[p := fl.head], f.head, f.count) == before[t] && Linked(m[p := fl.head], f.head, f.count)
      {
        assert p !in before[t];
        ChainFrame(m, p, fl.head, cells[t.cpu, t.class_].head, cells[t.cpu, t.class_].count);
      }
      mem := mem[p := fl.head];
      cells[s.cpu, s.class_] := FreeList(p, fl.count + 1);
      assert mem == m[p := fl.head];
      forall i, c | 0 <= i < PCPU && 0 <= c < NCLASS
        ensures Linked(mem, cells[i, c].head, cells[i, c].count)
      {
        assert Slot(i, c).Valid();
        assert Load(mem, p) == fl.head;
      }
    }

    /** Follow the head's link word. */
    method Pop(s: Slot) returns (p: nat)
      requires Wired() && s.Valid() && cells[s.cpu, s.class_].count > 0
      modifies cells
      ensures Wired()
      ensures p == old(Lists())[s][0] && p != 0
      ensures Lists() == old(Lists())[s := old(Lists())[s][1..]]
    {
      var fl := cells[s.cpu, s.class_];
      p := fl.head;
      cells[s.cpu, s.class_] := FreeList(Load(mem, p), fl.count - 1);
    }

    /** One refill step: the heap's block goes to the front of the list. */
    method Take(s: Slot, p: nat)
      requires Wired() && s.Valid() && Partition(Abs())
      requires Fresh(out, p, table[s.class_]) && p % SMALL_ALIGN == 0
      modifies this, cells
      ensures Wired() && Partition(Abs()) && Abs() == Grow(old(Abs()), s, p)
      ensures cells[s.cpu, s.class_].count == old(cells[s.cpu, s.class_].count) + 1
    {
      hide Partition, Fresh, Chain, Linked;
      ghost var v := Abs();
      NotListed(v, p, table[s.class_]);
      GrowKeeps(v, s, p);
      Push(s, p);
      place := place[p := Parked(s)];
      out := out[p := table[s.class_]];
      assert Abs() == Grow(v, s, p);
    }

    /** The slot's first block goes to the client. */
    method Give(s: Slot) returns (p: nat)
      requires Wired() && s.Valid() && cells[s.cpu, s.class_].count > 0
      modifies this, cells
      ensures Wired() && Lists().Keys == old(Lists()).Keys
      ensures old(Lists()[s]) != [] && p == old(Lists()[s][0]) && Abs() == Hand(old(Abs()), s)
    {
      hide Chain, Linked;
      ghost var v := Abs();
      p := Pop(s);
      place := place[p := Small(s.class_)];
      assert Abs() == Hand(v, s);
    }

    /** Ask the heap for a batch, stopping at the first refusal. */
    method RefillBatch(s: Slot, answers: seq<Option<nat>>)
      requires Wired() && Partition(Abs()) && s.Valid() && |answers| == BATCH && AnswersOk(Abs(), s, answers)
      modifies this, cells
      ensures Wired() && Abs() == Refill(old(Abs()), s, answers)
    {
      hide Partition, Fresh, Refill, AnswersOk, Chain, Linked, Grow;
      ghost var v := Abs();
      var k := 0;
      assert answers[0..] == answers;
      while k < BATCH && answers[k].Some?
        invariant 0 <= k <= BATCH
        invariant Wired() && Partition(Abs())
        invariant AnswersOk(Abs(), s, answers[k..])
        invariant Refill(Abs(), s, answers[k..]) == Refill(v, s, answers)
      {
        RefillNext(Abs(), s, answers[k..]);
        Take(s, answers[k].value);
        assert answers[k..][1..] == answers[k + 1..];
        k := k + 1;
      }
      RefillEnds(Abs(), s, answers[k..]);
    }

    method SmallAlloc(s: Slot, answers: seq<Option<nat>>) returns (r: Option<nat>)
      requires Valid() && s.Valid() && |answers| == BATCH && AnswersOk(Abs(), s, answers)
      modifies this, cells
      ensures Valid()
      ensures (Abs(), r) == AllocStep(old(Abs()), s, answers)
    {
      AllocKeeps(Abs(), s, answers);
      hide Partition, Fresh, Refill, AnswersOk, Chain, Hand, SameClients;
      if cells[s.cpu, s.class_].head == 0 {
        assert Lists()[s] == [];
        RefillBatch(s, answers);
        if cells[s.cpu, s.class_].head == 0 {
          return None;
        }
      }
      var p := Give(s);
      return Some(p);
    }

    /** The client's block goes to the front of the list. */
    method Stow(s: Slot, p: nat)
      requires Wired() && Partition(Abs()) && s.Valid() && p in place && place[p] == Small(s.class_)
      modifies this, cells
      ensures Wired() && Abs() == Park(old(Abs()), s, p)
      ensures cells[s.cpu, s.class_].count == old(cells[s.cpu, s.class_].count) + 1
    {
      hide Partition, Chain, Linked;
      ghost var v := Abs();
      ClientNotListed(v, p);
      Push(s, p);
      place := place[p := Parked(s)];
      assert Abs() == Park(v, s, p);
    }

    /** The slot's first block goes back to the heap. */
    method Return(s: Slot)
      requires Wired() && s.Valid() && cells[s.cpu, s.class_].count > 0
      modifies this, cells
      ensures Wired() && old(Lists()[s]) != [] && Abs() == Drop(old(Abs()), s)
      ensures cells[s.cpu, s.class_].count == old(cells[s.cpu, s.class_].count) - 1
    {
      hide Chain, Linked;
      ghost var v := Abs();
      var p := Pop(s);
      place := place - {p};
      out := out - {p};
      assert Abs() == Drop(v, s);
    }

    /** Give n blocks back; the list has them, so no link of an empty list is followed. */
    method Flush(s: Slot, n: nat)
      requires Wired() && s.Valid() && n <= cells[s.cpu, s.class_].count
      modifies this, cells
      ensures Wired() && n <= |old(Abs()).lists[s]| && Abs() == DropMany(old(Abs()), s, n)
    {
      hide DropMany, Drop, Chain, Linked;
      ghost var w := Abs();
      var left := n;
      while left > 0
        invariant Wired() && 0 <= left <= n
        invariant cells[s.cpu, s.class_].count >= left
        invariant DropMany(Abs(), s, left) == DropMany(w, s, n)
      {
        DropNext(Abs(), s, left);
        Return(s);
        left := left - 1;
      }
      DropNone(Abs(), s);
    }

    method SmallFree(s: Slot, p: nat)
      requires Valid() && s.Valid() && p in place && place[p] == Small(s.class_)
      modifies this, cells
      ensures Valid()
      ensures Abs() == FreeStep(old(Abs()), s, p)
    {
      hide Partition, DropMany, Drop, Park, Chain, Linked;
      ghost var v := Abs();
      FreeKeeps(v, s, p);
      Stow(s, p);
      if cells[s.cpu, s.class_].count > HIGH_WATER {
        Flush(s, BATCH);
      }
    }

    /** The heap serves a block of its own. */
    method LargeAllocate(bytes: nat, answer: Option<nat>) returns (r: Option<nat>)
      requires Valid() && (answer.Some? ==> Fresh(out, answer.value, bytes))
      modifies this
      ensures Valid() && r == answer
      ensures Abs() == if answer.Some? then LargeAlloc(old(Abs()), answer.value, bytes) else old(Abs())
    {
      hide Partition, Chain, Linked;
      ghost var v := Abs();
      r := answer;
      if r.Some? {
        LargeAllocKeeps(v, r.value, bytes);
        place := place[r.value := Large(bytes)];
        out := out[r.value := bytes];
        assert Lists() == v.lists;
      }
    }

    method LargeDeallocate(p: nat)
      requires Valid() && p in place && place[p].Large?
      modifies this
      ensures Valid()
      ensures Abs() == LargeFree(old(Abs()), p)
    {
      hide Partition, Chain, Linked;
      ghost var v := Abs();
      LargeFreeKeeps(v, p);
      place := place - {p};
      out := out - {p};
      assert Lists() == v.lists;
    }

    /** Whatever a client stores in its own block, no free list changes. */
    method ClientWrite(p: nat, off: nat, w: nat)
      requires Valid() && p in place && !place[p].Parked? && off < SizeOf(table, place[p])
      modifies this`mem
      ensures Valid() && mem == old(mem)[p + off := w]
      ensures Abs() == old(Abs())
    {
      hide Partition, Chain, Linked;
      ghost var v := Abs();
      ghost var m := mem;
      OwnBytesNotListed(v, p, off);
      forall s: Slot | s.Valid()
        ensures var f := cells[s.cpu, s.class_];
                Chain(m[p + off := w], f.head, f.count) == v.lists[s] && Linked(m[p + off := w], f.head, f.count)
      {
        assert p + off !in v.lists[s];
        ChainFrame(m, p + off, w, cells[s.cpu, s.class_].head, cells[s.cpu, s.class_].count);
      }
      mem := mem[p + off := w];
      forall i, c | 0 <= i < PCPU && 0 <= c < NCLASS
        ensures Linked(mem, cells[i, c].head, cells[i, c].count)
      {
        assert Slot(i, c).Valid();
      }
      assert Lists() == v.lists;
    }

    /** Bytes parked in all caches: what the heap has out beyond what clients hold. */
    method CachedBytes() returns (n: nat)
      requires Valid()
      ensures n + Sum(place, Held(table)) == Sum(out, Bytes())
    {
      hide Partition, ParkedBytes;
      ghost var lists := Lists();
      ParkedBalance(Abs());
      n := 0;
      for cpu := 0 to PCPU
        invariant n == ParkedBytes(table, lists, cpu * NCLASS)
      {
        for k := 0 to NCLASS
          invariant n == ParkedBytes(table, lists, cpu * NCLASS + k)
        {
          ParkedNext(table, lists, cpu, k);
          n := n + cells[cpu, k].count * table[k];
        }
      }
    }
  }

  lemma {:induction false} EmptyParked(table: seq<nat>, lists: map<Slot, seq<nat>>, n: nat)
    requires TableOk(table) && AllSlots(lists) && n <= SLOTS && forall s :: s in lists ==> lists[s] == []
    ensures ParkedBytes(table, lists, n) == 0
  {
    if n > 0 {
      EmptyParked(table, lists, n - 1);
    }
  }
}
