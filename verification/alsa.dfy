/** HW_REFINE / HW_PARAMS: narrowing the client's parameter space to what the ring does.

    The 608-byte parameter block is its 152 little-endian words: every field the code
    touches is an aligned word.  Word 0 is the flags; mask i is words 1 + 8i to 8 + 8i;
    interval i is words 65 + 3i (min), 66 + 3i (max), 67 + 3i (flags); word 128 is rmask,
    129 cmask, 130 to 135 info, msbits, rate and FIFO size. */
module HwParams {
  import opened Common
  import opened Division
  import opened Words

  const WORDS: nat := 152

  datatype Refined = Refined(words: seq<u32>, period: u32, buffer: u32)

  function Wrap(n: nat): u32 {
    n % U32
  }

  function Interval(b: seq<u32>, i: nat): (u32, u32)
    requires |b| == WORDS && i < 12
  {
    (b[65 + 3 * i], b[66 + 3 * i])
  }

  /** Bit 0, 2 or 3 of the first word of a mask. */
  predicate MaskAllows(b: seq<u32>, i: nat, bit: nat)
    requires |b| == WORDS && i < 3 && bit < 4
  {
    b[1 + 8 * i] / [1, 2, 4, 8][bit] % 2 == 1
  }

  function Distance(a: nat, b: nat): nat {
    if a < b then b - a else a - b
  }

  /** A value inside [lo, hi] and the client's interval, as near to `want` as that
      allows; none when the two do not meet. */
  function Choose(req: (u32, u32), want: u32, lo: u32, hi: u32): (r: Option<u32>)
    ensures r.Some? <==> Max(lo, req.0) <= Min(hi, req.1)
    ensures r.Some? ==> req.0 <= r.value <= req.1 && lo <= r.value <= hi
    ensures r.Some? ==> forall v: u32 :: req.0 <= v <= req.1 && lo <= v <= hi && v != r.value ==>
                                         Distance(r.value, want) < Distance(v, want)
  {
    var a, b := Max(lo, req.0), Min(hi, req.1);
    if a > b then None else Some(if want < a then a else if want > b then b else want)
  }

  function Fixed(i: nat): u32
    requires i < 4
  {
    [16, 32, 2, 48000][i]
  }

  predicate Offered(b: seq<u32>)
    requires |b| == WORDS
  {
    && (MaskAllows(b, 0, 0) || MaskAllows(b, 0, 3)) && MaskAllows(b, 1, 2) && MaskAllows(b, 2, 0)
    && forall i :: 0 <= i < 4 ==> Interval(b, i).0 <= Fixed(i) <= Interval(b, i).1
  }

  /** The time fields in microseconds, with the 32-bit product wrapping. */
  function Micros(frames: u32): u32 {
    Wrap(frames * 1000000) / 48000
  }

  /** The single value interval i is narrowed to. */
  function Value(period: u32, buffer: u32, i: nat): u32
    requires i < 12 && period > 0
  {
    if i < 4 then Fixed(i)
    else if i == 4 then Micros(period)
    else if i == 5 then period
    else if i == 6 then Wrap(period * 4)
    else if i == 7 then buffer / period
    else if i == 8 then Micros(buffer)
    else if i == 9 then buffer
    else if i == 10 then Wrap(buffer * 4)
    else 0
  }

  /** What refining leaves in word w of the block, before cmask. */
  function Word(b: seq<u32>, period: u32, buffer: u32, w: nat): u32
    requires |b| == WORDS && w < WORDS && period > 0
  {
    if 1 <= w <= 24 then
      if w == 1 then 8 else if w == 9 then 4 else if w == 17 then 1 else 0
    else if 65 <= w <= 100 then
      if (w - 65) % 3 == 2 then 4 else Value(period, buffer, (w - 65) / 3)
    else if w == 130 then 0x1_0100
    else if w == 131 then 16
    else if w == 132 then 48000
    else if w == 133 then 1
    else if w == 134 || w == 135 then 0
    else b[w]
  }

  function Narrowed(b: seq<u32>, period: u32, buffer: u32): (r: seq<u32>)
    requires |b| == WORDS && period > 0
    ensures |r| == WORDS
  {
    seq(WORDS, w requires 0 <= w < WORDS => Word(b, period, buffer, w))
  }

  // ---------- cmask ----------

  /** The test the code makes for parameter k (masks are 0 to 2, intervals 8 to 19): the
      first word of a mask, the minimum and maximum of an interval. */
  predicate ParamChanged(a: seq<u32>, b: seq<u32>, k: nat)
    requires |a| == |b| == WORDS
  {
    if k < 3 then a[1 + 8 * k] != b[1 + 8 * k]
    else 8 <= k < 20 && Interval(a, k - 8) != Interval(b, k - 8)
  }

  /** One bit for every parameter below n that changed. */
  function Changed(a: seq<u32>, b: seq<u32>, n: nat): nat
    requires |a| == |b| == WORDS
  {
    if n == 0 then 0
    else
      var m := Changed(a, b, n - 1);
      if ParamChanged(a, b, n - 1) then SetBit(m, n - 1) else m
  }

  function Cmask(a: seq<u32>, b: seq<u32>): (c: u32)
    requires |a| == |b| == WORDS
  {
    CmaskFits(a, b, 20);
    Changed(a, b, 20)
  }

  lemma {:induction false} CmaskFits(a: seq<u32>, b: seq<u32>, n: nat)
    requires |a| == |b| == WORDS && n <= 32
    ensures Changed(a, b, n) < 0x1_0000_0000
  {
    if n > 0 {
      CmaskFits(a, b, n - 1);
      Pow2Of32();
      BitWidth(Changed(a, b, n - 1), n - 1, 32);
    }
  }

  /** Bit k of cmask is set if and only if the test finds parameter k different. */
  lemma {:induction false} CmaskFollowsTheTest(a: seq<u32>, b: seq<u32>, n: nat, k: nat)
    requires |a| == |b| == WORDS
    ensures Bit(Changed(a, b, n), k) <==> k < n && ParamChanged(a, b, k)
  {
    hide ParamChanged;
    if n == 0 {
      NoOnes(k);
    } else {
      CmaskFollowsTheTest(a, b, n - 1, k);
      BitFacts(Changed(a, b, n - 1), n - 1, k);
    }
  }

  /** Period and buffer, in frames, from the client's two intervals. */
  function Sizes(p: (u32, u32), b: (u32, u32), ring: u32): (r: Option<(u32, u32)>)
    ensures r.Some? ==> r.value.0 > 0
  {
    match Choose(p, 1024, 240, ring / 2)
    case None => None
    case Some(period) =>
      match Choose(b, ring, period * 2, ring)
      case None => None
      case Some(chosen) => Some((period, chosen - chosen % period))
  }

  function Refine(b: seq<u32>, ring: u32): Option<Refined>
    requires |b| == WORDS
  {
    if !Offered(b) then None
    else match Sizes(Interval(b, 5), Interval(b, 9), ring)
      case None => None
      case Some(s) =>
        var n := Narrowed(b, s.0, s.1);
        Some(Refined(n[129 := Cmask(b, n)], s.0, s.1))
  }

  // ---------- what a successful refine gives ----------

  /** c - c % p is the greatest multiple of p that is at most c. */
  lemma GreatestMultiple(c: nat, p: nat)
    requires 0 < p && 2 * p <= c
    ensures 2 * p <= c - c % p <= c && (c - c % p) % p == 0
    ensures forall m :: c - c % p < m <= c ==> m % p != 0
  {
    var q := c / p;
    assert c == q * p + c % p;
    if q <= 1 {
      TimesMonotone(q, 1, p);
    } else {
      TimesMonotone(2, q, p);
    }
    RemainderIs(q, 0, p);
    forall m | c - c % p < m <= c
      ensures m % p != 0
    {
      RemainderIs(q, m - q * p, p);
    }
  }

  /** The period is the one nearest to 1024 that the client and the ring both allow; the buffer
      is the greatest multiple of the period up to the client's maximum and the ring, and lies
      below the client's minimum exactly when its interval has no such multiple. */
  lemma SizesOk(p: (u32, u32), b: (u32, u32), ring: u32)
    requires Sizes(p, b, ring).Some?
    ensures var (period, buffer) := Sizes(p, b, ring).value;
            var top := Min(ring, b.1);
            && 240 <= period <= ring / 2 && p.0 <= period <= p.1
            && (forall v :: 240 <= v <= ring / 2 && p.0 <= v <= p.1 ==> Distance(period, 1024) <= Distance(v, 1024))
            && 2 * period <= buffer <= top && buffer % period == 0
            && (forall m :: buffer < m <= top ==> m % period != 0)
            && (buffer < b.0 <==> forall m :: b.0 <= m <= top ==> m % period != 0)
  {
    var period := Choose(p, 1024, 240, ring / 2).value;
    var chosen := Choose(b, ring, period * 2, ring).value;
    GreatestMultiple(chosen, period);
    assert chosen == Min(ring, b.1);
    var buffer := chosen - chosen % period;
    assert b.0 <= buffer ==> b.0 <= buffer <= chosen;
  }

  /** A client that asks for 2500 to 2900 frames in periods of 1000 gets 2000. */
  lemma BelowTheMinimum()
    ensures Sizes((1000, 1000), (2500, 2900), 4096) == Some((1000, 2000))
  {
  }

  /** Asked again for exactly what was chosen, the same is chosen. */
  lemma SizesAgain(p: (u32, u32), b: (u32, u32), ring: u32)
    requires Sizes(p, b, ring).Some?
    ensures var (period, buffer) := Sizes(p, b, ring).value;
            Sizes((period, period), (buffer, buffer), ring) == Some((period, buffer))
  {
    SizesOk(p, b, ring);
    hide Sizes;
    var (period, buffer) := Sizes(p, b, ring).value;
    SizesExact(period, buffer, ring);
  }

  lemma SizesExact(period: u32, buffer: u32, ring: u32)
    requires 240 <= period <= ring / 2 && 2 * period <= buffer <= ring && buffer % period == 0
    ensures Sizes((period, period), (buffer, buffer), ring) == Some((period, buffer))
  {
  }

  lemma RefineOk(b: seq<u32>, ring: u32)
    requires |b| == WORDS && Refine(b, ring).Some?
    ensures var r := Refine(b, ring).value;
            && 240 <= r.period <= ring / 2 && Interval(b, 5).0 <= r.period <= Interval(b, 5).1
            && 2 * r.period <= r.buffer <= ring && r.buffer <= Interval(b, 9).1 && r.buffer % r.period == 0
  {
    SizesOk(Interval(b, 5), Interval(b, 9), ring);
    hide Narrowed, Changed, Offered, Sizes;
  }

  /** Sizes are found exactly when some period suits client and ring, and so does a buffer of at least two
      of the period nearest to 1024. */
  lemma SizesFound(p: (u32, u32), b: (u32, u32), ring: u32, v: u32)
    requires 240 <= v <= ring / 2 && p.0 <= v <= p.1
    requires forall u :: 240 <= u <= ring / 2 && p.0 <= u <= p.1 ==> Distance(v, 1024) <= Distance(u, 1024)
    ensures Sizes(p, b, ring).Some? <==> Max(2 * v, b.0) <= Min(ring, b.1)
  {
    var period := Choose(p, 1024, 240, ring / 2).value;
    assert Distance(v, 1024) <= Distance(period, 1024);
  }

  lemma NoPeriod(p: (u32, u32), b: (u32, u32), ring: u32)
    requires Max(240, p.0) > Min(ring / 2, p.1)
    ensures Sizes(p, b, ring).None?
  {
  }

  /** Refining succeeds exactly when the client offers MMAP_INTERLEAVED or RW_INTERLEAVED, S16_LE, the
      standard subformat, 16-bit samples in 32-bit frames, two channels, 48 kHz, and sizes that suit
      the ring. */
  lemma RefineSucceeds(b: seq<u32>, ring: u32)
    requires |b| == WORDS
    ensures Refine(b, ring).Some? <==>
            && (Bit(b[1], 0) || Bit(b[1], 3)) && Bit(b[9], 2) && Bit(b[17], 0)
            && b[65] <= 16 <= b[66] && b[68] <= 32 <= b[69] && b[71] <= 2 <= b[72] && b[74] <= 48000 <= b[75]
            && Sizes((b[80], b[81]), (b[92], b[93]), ring).Some?
  {
    FirstBits(b[1]);
    FirstBits(b[9]);
    FirstBits(b[17]);
    hide Bit, Narrowed, Changed, Sizes;
    assert Interval(b, 0) == (b[65], b[66]) && Interval(b, 1) == (b[68], b[69]);
    assert Interval(b, 2) == (b[71], b[72]) && Interval(b, 3) == (b[74], b[75]);
  }

  lemma FirstBits(w: u32)
    ensures Bit(w, 0) <==> w / 1 % 2 == 1
    ensures Bit(w, 2) <==> w / 4 % 2 == 1
    ensures Bit(w, 3) <==> w / 8 % 2 == 1
  {
    Halves(w);
    assert Bit(w, 2) == Bit(w / 2, 1) == Bit(w / 2 / 2, 0);
    assert Bit(w, 3) == Bit(w / 2, 2) == Bit(w / 2 / 2, 1) == Bit(w / 2 / 2 / 2, 0);
  }

  lemma Halves(w: nat)
    ensures w / 2 / 2 == w / 4 && w / 4 / 2 == w / 8 && w / 1 == w
  {
  }

  // ---------- what the client gets back ----------

  /** The intervals by their word numbers: minimum and maximum are one value, flagged as an integer. */
  ghost predicate SingleValues(w: seq<u32>)
    requires |w| == WORDS
  {
    forall i :: 0 <= i < 12 ==> w[65 + 3 * i] == w[66 + 3 * i] && w[67 + 3 * i] == 4
  }

  /** SAMPLE_BITS, CHANNELS, FRAME_BITS, RATE, PERIOD_SIZE, BUFFER_SIZE, TICK_TIME and PERIODS. */
  ghost predicate CountsAgree(w: seq<nat>, period: nat, buffer: nat)
    requires |w| == WORDS
  {
    && w[65] == 16 && w[71] == 2 && w[68] == w[65] * w[71] && w[74] == 48000
    && w[80] == period && w[92] == buffer && w[98] == 0 && w[86] * w[80] == w[92]
  }

  /** PERIOD_BYTES and BUFFER_BYTES are right below 2^30 frames and not above. */
  ghost predicate BytesAgree(w: seq<nat>)
    requires |w| == WORDS
  {
    && (w[80] < 0x4000_0000 <==> w[83] * 8 == w[80] * w[68])
    && (w[92] < 0x4000_0000 <==> w[95] * 8 == w[92] * w[68])
  }

  /** PERIOD_TIME and BUFFER_TIME are right, in whole microseconds, while the product fits 32 bits and
      not beyond. */
  ghost predicate TimesAgree(w: seq<nat>)
    requires |w| == WORDS
  {
    && (w[80] * 1000000 < 0x1_0000_0000 <==> w[77] * w[74] <= w[80] * 1000000 < (w[77] + 1) * w[74])
    && (w[92] * 1000000 < 0x1_0000_0000 <==> w[89] * w[74] <= w[92] * 1000000 < (w[89] + 1) * w[74])
  }

  /** The intervals the client gets back agree with each other and with the sizes chosen. */
  lemma RefineGives(b: seq<u32>, ring: u32)
    requires |b| == WORDS && Refine(b, ring).Some?
    ensures var r := Refine(b, ring).value;
            |r.words| == 152 && SingleValues(r.words) && CountsAgree(r.words, r.period, r.buffer)
            && BytesAgree(r.words) && TimesAgree(r.words)
  {
    hide Changed, Offered, Sizes, Narrowed, Value, SingleValues, CountsAgree, BytesAgree, TimesAgree;
    var r := Refine(b, ring).value;
    RefineOk(b, ring);
    var n := Narrowed(b, r.period, r.buffer);
    forall i | 0 <= i < 12
      ensures HasValue(r.words, i, Value(r.period, r.buffer, i))
    {
      IntervalIs(b, r.words, r.period, r.buffer, i);
    }
    ValuesAre(r.period, r.buffer);
    IntervalsAgree(r.words, r.period, r.buffer);
  }

  ghost predicate HasValue(w: seq<u32>, i: nat, v: u32)
    requires |w| == WORDS && i < 12
  {
    w[65 + 3 * i] == w[66 + 3 * i] == v && w[67 + 3 * i] == 4
  }

  lemma IntervalIs(b: seq<u32>, w: seq<u32>, period: u32, buffer: u32, i: nat)
    requires |b| == |w| == WORDS && period > 0 && i < 12 && w == Narrowed(b, period, buffer)[129 := w[129]]
    ensures HasValue(w, i, Value(period, buffer, i))
  {
    hide Narrowed, Value;
    NarrowedFields(b, period, buffer);
    NarrowedWords(b, period, buffer, i + 8);
    var n := Narrowed(b, period, buffer);
    assert 67 + 3 * i < 129 && i + 8 - 8 == i;
    assert w[65 + 3 * i] == n[65 + 3 * i] && w[66 + 3 * i] == n[66 + 3 * i] && w[67 + 3 * i] == n[67 + 3 * i];
    assert Interval(n, i) == (Value(period, buffer, i), Value(period, buffer, i));
  }

  lemma IntervalsAgree(w: seq<u32>, period: u32, buffer: u32)
    requires |w| == WORDS && period > 0 && buffer % period == 0
    requires HasValue(w, 0, 16) && HasValue(w, 1, 32) && HasValue(w, 2, 2) && HasValue(w, 3, 48000)
    requires HasValue(w, 4, Micros(period)) && HasValue(w, 5, period) && HasValue(w, 6, Wrap(period * 4))
    requires HasValue(w, 7, buffer / period) && HasValue(w, 8, Micros(buffer)) && HasValue(w, 9, buffer)
    requires HasValue(w, 10, Wrap(buffer * 4)) && HasValue(w, 11, 0)
    ensures SingleValues(w) && CountsAgree(w, period, buffer) && BytesAgree(w) && TimesAgree(w)
  {
    InBytes(period);
    InBytes(buffer);
    InMicros(period);
    InMicros(buffer);
    hide Micros, Wrap;
    WholePeriods(period, buffer);
  }

  lemma WholePeriods(period: u32, buffer: u32)
    requires period > 0 && buffer % period == 0
    ensures buffer / period * period == buffer
  {
  }

  lemma ValuesAre(period: u32, buffer: u32)
    requires period > 0
    ensures Value(period, buffer, 0) == 16 && Value(period, buffer, 1) == 32
    ensures Value(period, buffer, 2) == 2 && Value(period, buffer, 3) == 48000
    ensures Value(period, buffer, 4) == Micros(period) && Value(period, buffer, 5) == period
    ensures Value(period, buffer, 6) == Wrap(period * 4) && Value(period, buffer, 7) == buffer / period
    ensures Value(period, buffer, 8) == Micros(buffer) && Value(period, buffer, 9) == buffer
    ensures Value(period, buffer, 10) == Wrap(buffer * 4) && Value(period, buffer, 11) == 0
  {
  }

  lemma InBytes(frames: u32)
    ensures frames < 0x4000_0000 <==> Wrap(frames * 4) * 8 == frames * 32
  {
  }

  lemma InMicros(frames: u32)
    ensures frames * 1000000 < 0x1_0000_0000 <==>
            Micros(frames) * 48000 <= frames * 1000000 < (Micros(frames) + 1) * 48000
  {
    var m := frames * 1000000;
    if m >= U32 {
      assert Wrap(m) <= m - U32;
    }
  }

  /** One bit of each mask: RW_INTERLEAVED, S16_LE and STD; the information words; the rest as it was. */
  lemma RefineMasks(b: seq<u32>, ring: u32, k: nat)
    requires |b| == WORDS && Refine(b, ring).Some? && k < WORDS
    ensures var w := Refine(b, ring).value.words;
            && w[1] == 8 && w[9] == 4 && w[17] == 1
            && (1 <= k <= 24 && k != 1 && k != 9 && k != 17 ==> w[k] == 0)
            && w[130] == 0x1_0100 && w[131] == 16 && w[132] == 48000 && w[133] == 1 && w[134] == w[135] == 0
            && (k == 0 || 25 <= k <= 64 || 101 <= k <= 128 || 136 <= k ==> w[k] == b[k])
  {
    hide Changed, Offered, Sizes, Value;
  }

  lemma NarrowedFields(b: seq<u32>, period: u32, buffer: u32)
    requires |b| == WORDS && period > 0
    ensures var n := Narrowed(b, period, buffer);
            && n[1] == 8 && n[9] == 4 && n[17] == 1
            && forall i :: 0 <= i < 12 ==> Interval(n, i) == (Value(period, buffer, i), Value(period, buffer, i))
  {
    hide Value;
    forall i | 0 <= i < 12
      ensures Interval(Narrowed(b, period, buffer), i) == (Value(period, buffer, i), Value(period, buffer, i))
    {
      assert (65 + 3 * i - 65) / 3 == i && (66 + 3 * i - 65) / 3 == i;
    }
  }

  lemma NarrowedIsOffered(n: seq<u32>, period: u32, buffer: u32)
    requires |n| == WORDS && period > 0
    requires n[1] == 8 && n[9] == 4 && n[17] == 1
    requires forall i :: 0 <= i < 12 ==> Interval(n, i) == (Value(period, buffer, i), Value(period, buffer, i))
    ensures Offered(n)
  {
  }

  lemma NarrowedTwice(b: seq<u32>, c: u32, period: u32, buffer: u32)
    requires |b| == WORDS && period > 0
    ensures var n := Narrowed(b, period, buffer)[129 := c];
            Narrowed(n, period, buffer) == n
  {
  }

  lemma {:induction false} NothingChanged(a: seq<u32>, n: nat)
    requires |a| == WORDS
    ensures Changed(a, a, n) == 0
  {
    if n > 0 {
      NothingChanged(a, n - 1);
    }
  }

  /** Refining its own output again succeeds with the same period and buffer, changes no
      mask and no interval, and reports that nothing changed. */
  lemma RefineIsFixpoint(b: seq<u32>, ring: u32)
    requires |b| == WORDS && Refine(b, ring).Some?
    ensures var r := Refine(b, ring).value;
            Refine(r.words, ring) == Some(Refined(r.words[129 := 0], r.period, r.buffer))
  {
    hide Narrowed, Changed, Value, Offered, Sizes;
    var r := Refine(b, ring).value;
    var n := r.words;
    var plain := Narrowed(b, r.period, r.buffer);
    NarrowedFields(b, r.period, r.buffer);
    SizesAgain(Interval(b, 5), Interval(b, 9), ring);
    forall i | 0 <= i < 12
      ensures Interval(n, i) == Interval(plain, i)
    {
    }
    NarrowedIsOffered(n, r.period, r.buffer);
    ValueAt(r.period, r.buffer);
    NarrowedTwice(b, n[129], r.period, r.buffer);
    assert n == plain[129 := n[129]];
    NothingChanged(n, 20);
  }

  lemma ValueAt(period: u32, buffer: u32)
    requires period > 0
    ensures Value(period, buffer, 5) == period && Value(period, buffer, 9) == buffer
  {
  }

  // ---------- what cmask reports and what it does not ----------

  /** Word w is part of parameter k: eight words of a mask; minimum, maximum and flags. */
  predicate WordOf(k: nat, w: nat) {
    (k < 3 && 1 + 8 * k <= w <= 8 + 8 * k) || (8 <= k < 20 && 3 * k + 41 <= w <= 3 * k + 43)
  }

  /** Some word of parameter k is not what the client sent. */
  ghost predicate Touched(b: seq<u32>, n: seq<u32>, k: nat)
    requires |b| == |n| == WORDS
  {
    exists w :: 0 <= w < WORDS && WordOf(k, w) && b[w] != n[w]
  }

  /** The part of parameter k that is tested is not yet what refining makes of it. */
  ghost predicate TestedPartOpen(b: seq<u32>, period: u32, buffer: u32, k: nat)
    requires |b| == WORDS && period > 0
  {
    if k < 3 then b[1 + 8 * k] != [8, 4, 1][k]
    else 8 <= k < 20 && Interval(b, k - 8) != (Value(period, buffer, k - 8), Value(period, buffer, k - 8))
  }

  /** The part of parameter k that is not tested already is what refining makes of it. */
  ghost predicate OtherPartPlain(b: seq<u32>, k: nat)
    requires |b| == WORDS
  {
    if k < 3 then forall w :: 2 + 8 * k <= w <= 8 + 8 * k ==> b[w] == 0
    else 8 <= k < 20 ==> b[67 + 3 * (k - 8)] == 4
  }

  lemma MaskTouched(b: seq<u32>, n: seq<u32>, k: nat)
    requires |b| == |n| == WORDS && k < 3 && n[1 + 8 * k] == [8, 4, 1][k]
    requires forall w :: 2 + 8 * k <= w <= 8 + 8 * k ==> n[w] == 0
    ensures ParamChanged(b, n, k) <==> b[1 + 8 * k] != [8, 4, 1][k]
    ensures Touched(b, n, k) <==> b[1 + 8 * k] != [8, 4, 1][k] || !OtherPartPlain(b, k)
  {
    if b[1 + 8 * k] != n[1 + 8 * k] {
      assert WordOf(k, 1 + 8 * k);
    } else if w :| 2 + 8 * k <= w <= 8 + 8 * k && b[w] != 0 {
      assert WordOf(k, w);
    }
  }

  lemma IntervalTouched(b: seq<u32>, n: seq<u32>, k: nat, v: u32)
    requires |b| == |n| == WORDS && 8 <= k < 20 && Interval(n, k - 8) == (v, v) && n[67 + 3 * (k - 8)] == 4
    ensures ParamChanged(b, n, k) <==> Interval(b, k - 8) != (v, v)
    ensures Touched(b, n, k) <==> Interval(b, k - 8) != (v, v) || !OtherPartPlain(b, k)
  {
    var w := 3 * k + 41;
    assert WordOf(k, w) && WordOf(k, w + 1) && WordOf(k, w + 2);
  }

  lemma NarrowedWords(b: seq<u32>, period: u32, buffer: u32, k: nat)
    requires |b| == WORDS && period > 0
    ensures var n := Narrowed(b, period, buffer);
            && (k < 3 ==> n[1 + 8 * k] == [8, 4, 1][k])
            && (k < 3 ==> forall w :: 2 + 8 * k <= w <= 8 + 8 * k ==> n[w] == 0)
            && (8 <= k < 20 ==> n[67 + 3 * (k - 8)] == 4)
  {
    hide Value;
    if 8 <= k < 20 {
      assert (67 + 3 * (k - 8) - 65) % 3 == 2;
    }
  }

  /** A reported parameter was changed. The report on a parameter is right if and only if the
      tested part of it changes, or the rest of it already was as refining leaves it. */
  lemma CmaskIsRight(b: seq<u32>, ring: u32, k: nat)
    requires |b| == WORDS && Refine(b, ring).Some?
    ensures var r := Refine(b, ring).value;
            && (Bit(r.words[129], k) ==> Touched(b, r.words, k))
            && ((Bit(r.words[129], k) <==> Touched(b, r.words, k)) <==>
                  TestedPartOpen(b, r.period, r.buffer, k) || OtherPartPlain(b, k))
  {
    hide Narrowed, Value, Offered, Sizes, Bit, Changed;
    var r := Refine(b, ring).value;
    var n := Narrowed(b, r.period, r.buffer);
    CmaskFollowsTheTest(b, n, 20, k);
    NarrowedWords(b, r.period, r.buffer, k);
    NarrowedFields(b, r.period, r.buffer);
    if k < 3 {
      MaskTouched(b, r.words, k);
      assert ParamChanged(b, n, k) == ParamChanged(b, r.words, k);
    } else if 8 <= k < 20 {
      var v := Value(r.period, r.buffer, k - 8);
      assert Interval(n, k - 8) == (v, v);
      IntervalTouched(b, r.words, k, v);
    }
  }

  /** A client that offers S16_LE and format 32, and asks for exactly 16 sample bits. */
  ghost function TwoFormats(): (b: seq<u32>)
    ensures |b| == WORDS
  {
    seq(WORDS, w => if w == 1 then 8 else if w == 9 then 4 else if w == 10 || w == 17 then 1
                    else if w == 65 || w == 66 then 16
                    else if 65 <= w <= 100 && (w - 65) % 3 == 1 then 1000000 else 0)
  }

  /** Format 32 is taken out of the FORMAT mask, and the flags of SAMPLE_BITS are set, and neither is reported. */
  lemma UnreportedChanges()
    ensures var b := TwoFormats();
            && Refine(b, 4096).Some?
            && var n := Refine(b, 4096).value.words;
               && b[10] == 1 && n[10] == 0 && !Bit(n[129], 1)
               && b[67] == 0 && n[67] == 4 && !Bit(n[129], 8)
  {
    var b := TwoFormats();
    TwoFormatsOffered();
    TwoFormatsSizes();
    hide TwoFormats, Offered, Sizes, Bit, Changed;
    var n := Narrowed(b, 1024, 4096);
    assert n[10] == 0 && n[67] == 4;
    CmaskFollowsTheTest(b, n, 20, 1);
    CmaskFollowsTheTest(b, n, 20, 8);
  }

  lemma TwoFormatsOffered()
    ensures Offered(TwoFormats())
    ensures var b := TwoFormats(); b[9] == 4 && b[10] == 1 && b[65] == b[66] == 16 && b[67] == 0
  {
    var b := TwoFormats();
    assert b[66] == 16 && b[69] == b[72] == b[75] == 1000000;
    assert b[65] == 16 && b[68] == b[71] == b[74] == 0;
  }

  lemma TwoFormatsSizes()
    ensures Sizes(Interval(TwoFormats(), 5), Interval(TwoFormats(), 9), 4096) == Some((1024, 4096))
  {
    hide Sizes;
    assert Interval(TwoFormats(), 5) == (0, 1000000) && Interval(TwoFormats(), 9) == (0, 1000000);
    WideSizes();
  }

  lemma WideSizes()
    ensures Sizes((0, 1000000), (0, 1000000), 4096) == Some((1024, 4096))
  {
  }

  // ---------- the block edited in place ----------

  /** Words of the block that stand for intervals below n: all narrowed; everything from
      there to word 100 still as the client set it. */
  ghost predicate IntervalsDone(buf: seq<u32>, b: seq<u32>, period: u32, buffer: u32, n: nat)
    requires |buf| == |b| == WORDS && period > 0 && n <= 12
  {
    && (forall w :: 0 <= w < 65 + 3 * n ==> buf[w] == Word(b, period, buffer, w))
    && (forall w :: 65 + 3 * n <= w < WORDS ==> buf[w] == b[w])
  }

  method PutInterval(buf: array<u32>, i: nat, v: u32)
    requires buf.Length == WORDS && i < 12
    modifies buf
    ensures buf[..] == old(buf[..])[65 + 3 * i := v][66 + 3 * i := v][67 + 3 * i := 4]
  {
    buf[65 + 3 * i] := v;
    buf[66 + 3 * i] := v;
    buf[67 + 3 * i] := 4;
  }

  method PutMask(buf: array<u32>, i: nat, v: u32)
    requires buf.Length == WORDS && i < 3
    modifies buf
    ensures forall w :: 0 <= w < WORDS ==>
              buf[w] == if w == 1 + 8 * i then v else if 1 + 8 * i < w <= 8 + 8 * i then 0 else old(buf[w])
  {
    for k := 1 to 9
      invariant forall w :: 0 <= w < WORDS ==> buf[w] == if 1 + 8 * i <= w < k + 8 * i then 0 else old(buf[w])
    {
      buf[k + 8 * i] := 0;
    }
    buf[1 + 8 * i] := v;
  }

  lemma OneMoreInterval(buf: seq<u32>, b: seq<u32>, period: u32, buffer: u32, i: nat)
    requires |buf| == |b| == WORDS && period > 0 && i < 12 && IntervalsDone(buf, b, period, buffer, i)
    ensures var v := Value(period, buffer, i);
            IntervalsDone(buf[65 + 3 * i := v][66 + 3 * i := v][67 + 3 * i := 4], b, period, buffer, i + 1)
  {
    hide Value;
    assert (65 + 3 * i - 65) / 3 == i && (66 + 3 * i - 65) / 3 == i && (67 + 3 * i - 65) % 3 == 2;
  }

  /** The loop over the fixed parameters: each must lie in the client's interval. */
  method FixParams(buf: array<u32>, ghost b: seq<u32>, ghost period: u32, ghost buffer: u32) returns (ok: bool)
    requires buf.Length == WORDS && |b| == WORDS && period > 0 && IntervalsDone(buf[..], b, period, buffer, 0)
    modifies buf
    ensures ok <==> forall i :: 0 <= i < 4 ==> Interval(b, i).0 <= Fixed(i) <= Interval(b, i).1
    ensures ok ==> IntervalsDone(buf[..], b, period, buffer, 4)
  {
    hide Word, Fixed;
    for i := 0 to 4
      invariant IntervalsDone(buf[..], b, period, buffer, i)
      invariant forall k :: 0 <= k < i ==> Interval(b, k).0 <= Fixed(k) <= Interval(b, k).1
    {
      assert Interval(buf[..], i) == Interval(b, i);
      var v := Fixed(i);
      if buf[65 + 3 * i] > v || buf[66 + 3 * i] < v {
        return false;
      }
      OneMoreInterval(buf[..], b, period, buffer, i);
      assert Value(period, buffer, i) == v;
      PutInterval(buf, i, v);
    }
    return true;
  }

  method CountChanged(b: array<u32>, n: array<u32>) returns (c: u32)
    requires b.Length == n.Length == WORDS
    ensures c == Cmask(b[..], n[..])
  {
    var m := 0;
    for k := 0 to 20
      invariant m == Changed(b[..], n[..], k)
    {
      if ParamChanged(b[..], n[..], k) {
        m := SetBit(m, k);
      }
    }
    CmaskFits(b[..], n[..], 20);
    c := m;
  }

  lemma MasksDone(buf: seq<u32>, b: seq<u32>, period: u32, buffer: u32)
    requires |buf| == |b| == WORDS && period > 0
    requires buf[1] == 8 && buf[9] == 4 && buf[17] == 1
    requires forall w :: 0 <= w < WORDS ==>
               if 1 <= w <= 24 then (w == 1 || w == 9 || w == 17 || buf[w] == 0) else buf[w] == b[w]
    ensures IntervalsDone(buf, b, period, buffer, 0)
  {
  }

  lemma AllDone(buf: seq<u32>, b: seq<u32>, period: u32, buffer: u32)
    requires |buf| == |b| == WORDS && period > 0 && IntervalsDone(buf, b, period, buffer, 12)
    ensures buf[130 := 0x1_0100][131 := 16][132 := 48000][133 := 1][134 := 0][135 := 0] == Narrowed(b, period, buffer)
  {
  }

  method NarrowMasks(buf: array<u32>, ghost b: seq<u32>, ghost period: u32, ghost buffer: u32)
    requires buf.Length == WORDS && buf[..] == b && period > 0
    modifies buf
    ensures IntervalsDone(buf[..], b, period, buffer, 0)
  {
    hide Word;
    PutMask(buf, 0, 8);
    PutMask(buf, 1, 4);
    PutMask(buf, 2, 1);
    MasksDone(buf[..], b, period, buffer);
  }

  /** The intervals that depend on period and buffer, the information words and cmask. */
  method NarrowRest(user: array<u32>, buf: array<u32>, period: u32, buffer: u32)
    requires user.Length == buf.Length == WORDS && user != buf && period > 0
    requires IntervalsDone(buf[..], user[..], period, buffer, 4)
    modifies buf
    ensures buf[..] == Narrowed(user[..], period, buffer)[129 := Cmask(user[..], Narrowed(user[..], period, buffer))]
  {
    hide Word, Value, Narrowed, Changed;
    ghost var b := user[..];
    for i := 4 to 12
      invariant IntervalsDone(buf[..], b, period, buffer, i)
    {
      OneMoreInterval(buf[..], b, period, buffer, i);
      PutInterval(buf, i, Value(period, buffer, i));
    }
    AllDone(buf[..], b, period, buffer);
    ghost var done := buf[..];
    buf[130], buf[131], buf[132], buf[133], buf[134], buf[135] := 0x1_0100, 16, 48000, 1, 0, 0;
    assert buf[..] == done[130 := 0x1_0100][131 := 16][132 := 48000][133 := 1][134 := 0][135 := 0];
    var cmask := CountChanged(user, buf);
    buf[129] := cmask;
  }

  /** HW_REFINE on the client's block: refused, it is left alone; otherwise it becomes the
      refined block. */
  method RefineBlock(user: array<u32>, ring: u32) returns (r: Option<(u32, u32)>)
    requires user.Length == WORDS
    modifies user
    ensures match Refine(old(user[..]), ring)
            case None => r == None && user[..] == old(user[..])
            case Some(x) => r == Some((x.period, x.buffer)) && user[..] == x.words
  {
    hide Word, Sizes, Narrowed, Changed, Fixed, IntervalsDone, MaskAllows;
    var asked := user[..];
    if !(MaskAllows(asked, 0, 0) || MaskAllows(asked, 0, 3)) || !MaskAllows(asked, 1, 2) || !MaskAllows(asked, 2, 0) {
      return None;
    }
    var buf := new u32[WORDS](i requires 0 <= i < WORDS reads user => user[i]);
    var sizes := Sizes(Interval(asked, 5), Interval(asked, 9), ring);
    var (period, buffer) := if sizes.Some? then sizes.value else (1, 0);
    assert buf[..] == asked;
    NarrowMasks(buf, asked, period, buffer);
    var ok := FixParams(buf, asked, period, buffer);
    if !ok || sizes.None? {
      return None;
    }
    NarrowRest(user, buf, period, buffer);
    forall i | 0 <= i < WORDS {
      user[i] := buf[i];
    }
    assert user[..] == buf[..];
    return Some((period, buffer));
  }
}

/** The playback ring: the client's pointer `appl`, the hardware's pointer `hw`, and the
    cyclic buffer between them. */
module PcmRing {
  import opened Common
  import opened Division
  import H = HwParams

  datatype State = Open | Setup | Prepared | Running | Xrun | Paused

  /** One 16-bit stereo frame. */
  type Frame = u32

  const SILENCE: Frame := 0

  /** `accepted` is the history: every frame taken since the last PREPARE. */
  datatype Pcm = Pcm(state: State, ring: seq<Frame>, period: nat, buffer: nat, appl: nat, hw: nat,
                     runTick: nat, availMin: nat, startThreshold: nat, accepted: seq<Frame>)

  function Monus(a: nat, b: nat): nat {
    if a < b then 0 else a - b
  }

  function Zeroed(n: nat): (r: seq<Frame>)
    ensures |r| == n
  {
    seq(n, _ => SILENCE)
  }

  /** The hardware pointer follows guest time, 480 frames a tick, and never passes what
      the client wrote. */
  function Sync(p: Pcm, now: nat): Pcm {
    if |p.ring| == 0 || p.state != Running then p
    else
      var target := Monus(now, p.runTick) * 480;
      if target > p.hw then p.(hw := Min(target, p.appl)) else p
  }

  function Avail(p: Pcm): nat {
    Monus(p.buffer, Monus(p.appl, p.hw))
  }

  /** d laid over s from position o on. */
  function Overlay(s: seq<Frame>, o: nat, d: seq<Frame>): (r: seq<Frame>)
    requires o + |d| <= |s|
    ensures |r| == |s| && forall i :: 0 <= i < |s| ==> r[i] == if o <= i < o + |d| then d[i - o] else s[i]
  {
    s[..o] + d + s[o + |d|..]
  }

  /** Two copies: up to the ring's end, then from its start. */
  function RingWrite(ring: seq<Frame>, o: nat, d: seq<Frame>): (r: seq<Frame>)
    requires o < |ring| && |d| <= |ring|
    ensures |r| == |ring|
  {
    var first := Min(|ring| - o, |d|);
    Overlay(Overlay(ring, o, d[..first]), 0, d[first..])
  }

  /** Any amount of data, a ring's length at a time. */
  function RingWriteAll(ring: seq<Frame>, o: nat, d: seq<Frame>): (r: seq<Frame>)
    requires o < |ring|
    ensures |r| == |ring|
    decreases |d|
  {
    if |d| <= |ring| then RingWrite(ring, o, d)
    else RingWriteAll(RingWrite(ring, o, d[..|ring|]), o, d[|ring|..])
  }

  /** Slot k is one of the n slots from o on, going round. */
  predicate Stretch(size: nat, o: nat, n: nat, k: nat) {
    if o <= k then k - o < n else k + size - o < n
  }

  /** The ring with the slots between two offsets silent. */
  function Silenced(ring: seq<Frame>, from: nat, to: nat): (r: seq<Frame>)
    requires ring != []
    ensures |r| == |ring|
  {
    seq(|ring|, k requires 0 <= k < |ring| =>
      if Stretch(|ring|, from % |ring|, Min(Monus(to, from), |ring|), k) then SILENCE else ring[k])
  }

  function BeginRunning(p: Pcm, now: nat): Pcm {
    p.(state := Running, runTick := now, hw := 0)
  }

  function MaybeStart(p: Pcm, now: nat): Pcm {
    if p.state == Prepared && p.appl >= p.startThreshold then BeginRunning(p, now) else p
  }

  datatype Reply = Accepted(n: nat) | EBADFD | EPIPE | EAGAIN | EFAULT

  function Take(p: Pcm, d: seq<Frame>): Pcm
    requires 0 < |p.ring| && |d| <= |p.ring|
  {
    p.(ring := RingWrite(p.ring, p.appl % |p.ring|, d), appl := p.appl + |d|, accepted := p.accepted + d)
  }

  /** WRITEI.  `readable` and `writable` say whether the client's memory could be read
      and the count stored. */
  function Writei(p: Pcm, now: nat, data: seq<Frame>, readable: bool, writable: bool): (Pcm, Reply)
    requires p.buffer <= |p.ring|
  {
    if p.state == Open || p.state == Setup then (p, EBADFD)
    else
      var q := Sync(p, now);
      if q.state == Xrun then (q, EPIPE)
      else
        var n := Min(|data|, Avail(q));
        if n == 0 then (q, EAGAIN)
        else if !readable then (q, EFAULT)
        else (MaybeStart(Take(q, data[..n]), now), if writable then Accepted(n) else EFAULT)
  }

  // ---------- every ioctl ----------

  datatype Event =
    | EOpen(frames: nat)
    | EClose
    | EHwFree
    | EHwParams(block: seq<u32>)
    | ESwParams(availMin: nat, start: nat)
    | ESync(now: nat)
    | ESyncPtr(now: nat)
    | EPrepare
    | EStart(now: nat)
    | EDrop
    | EPause(on: bool)
    | EWritei(now: nat, data: seq<Frame>, readable: bool, writable: bool)

  /** The device's ring has at least 2048 frames; PAUSE comes from a prepared or running
      stream. */
  ghost predicate Enabled(p: Pcm, e: Event) {
    match e
    case EOpen(frames) => 2048 <= frames < U32
    case EHwParams(block) => |block| == H.WORDS
    case EPause(_) => Active(p.state)
    case _ => true
  }

  ghost predicate Active(s: State) {
    s == Prepared || s == Running || s == Paused || s == Xrun
  }

  ghost function Step(p: Pcm, e: Event): Pcm
    requires 2048 <= |p.ring| < U32 && p.buffer <= |p.ring| && Enabled(p, e)
  {
    match e
    case EOpen(frames) =>
      p.(state := Open, ring := Zeroed(frames), appl := 0, hw := 0, accepted := [],
         buffer := if p.buffer == 0 || p.buffer > frames then frames else p.buffer)
    case EClose => p.(state := Open, ring := Zeroed(|p.ring|))
    case EHwFree => p.(state := Open)
    case EHwParams(block) =>
      (match H.Refine(block, |p.ring|)
       case None => p
       case Some(r) => p.(period := r.period, buffer := r.buffer, state := Setup))
    case ESwParams(availMin, start) =>
      p.(availMin := Max(availMin, 1), startThreshold := if start == 0 then 1 else start)
    case ESync(now) => Sync(p, now)
    case ESyncPtr(now) => MaybeStart(Sync(p, now), now)
    case EPrepare =>
      p.(state := Prepared, ring := Zeroed(|p.ring|), appl := 0, hw := 0, accepted := [])
    case EStart(now) => if p.state == Prepared then BeginRunning(p, now) else p
    case EDrop => p.(state := Setup, ring := Zeroed(|p.ring|))
    case EPause(on) => p.(state := if on then Paused else Running)
    case EWritei(now, data, readable, writable) => Writei(p, now, data, readable, writable).0
  }

  // ---------- what always holds ----------

  /** Each slot holds the last frame accepted for it, and silence while there was none. */
  ghost predicate Holds(p: Pcm)
    requires 0 < |p.ring| && |p.accepted| == p.appl
  {
    && (forall k :: 0 <= k < p.appl <= k + |p.ring| ==> p.ring[k % |p.ring|] == p.accepted[k])
    && (forall j :: p.appl <= j < |p.ring| ==> p.ring[j] == SILENCE)
  }

  ghost predicate Inv(p: Pcm) {
    && 2048 <= |p.ring| < U32 && p.buffer <= |p.ring|
    && (Active(p.state) ==>
          p.hw <= p.appl <= p.hw + p.buffer && |p.accepted| == p.appl && Holds(p))
    && (p.state == Prepared ==> p.hw == 0)
  }

  lemma SyncKeeps(p: Pcm, now: nat)
    requires Inv(p)
    ensures Inv(Sync(p, now)) && p.hw <= Sync(p, now).hw
  {
  }

  /** Ticks of the clock since the stream was started. */
  function Ticks(p: Pcm, now: nat): nat {
    if now <= p.runTick then 0 else now - p.runTick
  }

  /** The clock has come to position h and the client has written up to it. */
  ghost predicate Reached(p: Pcm, now: nat, h: nat) {
    h <= p.appl && h <= 480 * Ticks(p, now)
  }

  /** A running stream is synced to the last frame that the clock has reached, at 480 frames a tick, and
      that the client has written; never back. Nothing else changes, and no other stream does. */
  lemma SyncFollowsTheClock(p: Pcm, now: nat)
    requires Inv(p)
    ensures var q := Sync(p, now);
            && q == p.(hw := q.hw)
            && (p.state != Running ==> q.hw == p.hw)
            && (p.state == Running ==>
                  && p.hw <= q.hw <= p.appl
                  && (q.hw == p.hw || Reached(p, now, q.hw))
                  && forall h: nat :: Reached(p, now, h) ==> h <= q.hw)
  {
    hide Holds;
  }

  /** Slot of position a + j, seen from the slot of a. */
  lemma SlotAfter(a: nat, j: nat, n: nat)
    requires 0 < n && j < n
    ensures (a + j) % n == if a % n + j < n then a % n + j else a % n + j - n
  {
    var q, o := a / n, a % n;
    assert a == q * n + o;
    if o + j < n {
      RemainderIs(q, o + j, n);
    } else {
      assert (q + 1) * n == q * n + n;
      RemainderIs(q + 1, o + j - n, n);
    }
  }

  lemma WrittenSlot(ring: seq<Frame>, a: nat, d: seq<Frame>, j: nat)
    requires 0 < |ring| && |d| <= |ring| && j < |d|
    ensures RingWrite(ring, a % |ring|, d)[(a + j) % |ring|] == d[j]
  {
    SlotAfter(a, j, |ring|);
  }

  lemma UntouchedSlot(ring: seq<Frame>, a: nat, d: seq<Frame>, j: nat)
    requires 0 < |ring| && |d| <= |ring| && |d| <= j < |ring|
    ensures RingWrite(ring, a % |ring|, d)[(a + j) % |ring|] == ring[(a + j) % |ring|]
  {
    SlotAfter(a, j, |ring|);
  }

  /** Of any amount of data the last ring's length is there, each frame in its slot. */
  lemma {:induction false} LastFramesStay(ring: seq<Frame>, a: nat, d: seq<Frame>, j: nat)
    requires 0 < |ring| && j < |d| <= j + |ring|
    ensures RingWriteAll(ring, a % |ring|, d)[(a + j) % |ring|] == d[j]
    decreases |d|
  {
    hide RingWrite;
    var n := |ring|;
    if |d| <= n {
      WrittenSlot(ring, a, d, j);
    } else {
      var once := RingWrite(ring, a % n, d[..n]);
      if j < n {
        EarlierTurn(once, a, d[n..], j);
        WrittenSlot(ring, a, d[..n], j);
      } else {
        LastFramesStay(once, a, d[n..], j - n);
        WholeTurn(a + (j - n), n);
        assert a + (j - n) + n == a + j;
      }
    }
  }

  lemma EarlierTurn(ring: seq<Frame>, a: nat, d: seq<Frame>, j: nat)
    requires |d| <= j < |ring|
    ensures RingWriteAll(ring, a % |ring|, d)[(a + j) % |ring|] == ring[(a + j) % |ring|]
  {
    hide RingWrite;
    UntouchedSlot(ring, a, d, j);
  }

  lemma WholeTurn(k: nat, n: nat)
    requires 0 < n
    ensures (k + n) % n == k % n
  {
    assert k == (k / n) * n + k % n;
    assert (k / n + 1) * n == (k / n) * n + n;
    RemainderIs(k / n + 1, k % n, n);
  }

  /** Silencing from one offset to another: that many slots from the first on, going round, and no other. */
  lemma SilencedSlot(ring: seq<Frame>, from: nat, to: nat, j: nat)
    requires j < |ring|
    ensures Silenced(ring, from, to)[(from + j) % |ring|] ==
            if from + j < to then SILENCE else ring[(from + j) % |ring|]
  {
    SlotAfter(from, j, |ring|);
  }

  lemma TakeKeeps(p: Pcm, d: seq<Frame>)
    requires Inv(p) && Active(p.state) && |d| <= Avail(p)
    ensures var q := Take(p, d);
            q.hw <= q.appl <= q.hw + q.buffer && |q.accepted| == q.appl && Holds(q)
  {
    hide RingWrite;
    var q := Take(p, d);
    var n := |p.ring|;
    forall j | q.appl <= j < n
      ensures q.ring[j] == SILENCE
    {
      SilentSlot(p.ring, p.appl, d, j);
    }
    forall k | 0 <= k < q.appl <= k + n
      ensures q.ring[k % n] == q.accepted[k]
    {
      if k >= p.appl {
        WrittenSlot(p.ring, p.appl, d, k - p.appl);
      } else {
        var j := k + n - p.appl;
        WholeTurn(k, n);
        assert p.appl + j == k + n;
        UntouchedSlot(p.ring, p.appl, d, j);
      }
    }
  }

  lemma SilentSlot(ring: seq<Frame>, a: nat, d: seq<Frame>, j: nat)
    requires 0 < |ring| && a + |d| <= j < |ring|
    ensures RingWrite(ring, a % |ring|, d)[j] == ring[j]
  {
    RemainderIs(0, a, |ring|);
    assert a % |ring| == a;
  }

  lemma WriteiKeeps(p: Pcm, now: nat, data: seq<Frame>, readable: bool, writable: bool)
    requires Inv(p)
    ensures Inv(Writei(p, now, data, readable, writable).0)
    ensures p.hw <= Writei(p, now, data, readable, writable).0.hw
  {
    SyncKeeps(p, now);
    var q := Sync(p, now);
    var n := Min(|data|, Avail(q));
    if Active(q.state) {
      TakeKeeps(q, data[..n]);
    }
    hide Holds, RingWrite;
  }

  /** Every call keeps the invariant, and except where the stream is opened or prepared
      anew the hardware pointer never moves back. */
  lemma StepKeeps(p: Pcm, e: Event)
    requires Inv(p) && Enabled(p, e)
    ensures Inv(Step(p, e))
    ensures !e.EPrepare? && !e.EOpen? ==> p.hw <= Step(p, e).hw
  {
    match e {
      case ESync(now) => SyncKeeps(p, now);
      case ESyncPtr(now) => SyncKeeps(p, now);
      case EWritei(now, data, readable, writable) => WriteiKeeps(p, now, data, readable, writable);
      case EHwParams(block) =>
        if H.Refine(block, |p.ring|).Some? {
          H.RefineOk(block, |p.ring|);
        }
      case _ =>
    }
  }

  /** The calls es lead from p to q. */
  ghost predicate Reaches(p: Pcm, es: seq<Event>, q: Pcm)
    decreases |es|
  {
    if es == [] then q == p
    else
      && 2048 <= |p.ring| < U32 && p.buffer <= |p.ring| && Enabled(p, es[0])
      && Reaches(Step(p, es[0]), es[1..], q)
  }

  /** A stream as opening it leaves it. */
  ghost predicate Opened(p: Pcm) {
    && p.state == Open && 2048 <= |p.ring| < U32 && p.ring == Zeroed(|p.ring|)
    && 0 < p.buffer <= |p.ring| && p.appl == p.hw == 0 && p.accepted == []
  }

  ghost predicate NoFreshStart(es: seq<Event>) {
    forall i :: 0 <= i < |es| ==> !es[i].EPrepare? && !es[i].EOpen?
  }

  lemma {:induction false} RunKeeps(p: Pcm, es: seq<Event>, q: Pcm)
    requires Inv(p) && Reaches(p, es, q)
    ensures Inv(q)
    ensures NoFreshStart(es) ==> p.hw <= q.hw
    decreases |es|
  {
    if es != [] {
      StepKeeps(p, es[0]);
      hide Inv, Step;
      RunKeeps(Step(p, es[0]), es[1..], q);
    }
  }

  /** Over every run es of a stream just opened: hw <= appl <= hw + buffer, each slot holds the last
      frame accepted for it, and silence while there was none; and over every continuation fs that does not
      prepare anew, hw does not move back. */
  lemma EveryRun(p: Pcm, es: seq<Event>, q: Pcm, fs: seq<Event>, r: Pcm)
    requires Opened(p) && Reaches(p, es, q) && Reaches(q, fs, r)
    ensures Active(q.state) ==>
              && q.hw <= q.appl <= q.hw + q.buffer && q.buffer <= |q.ring| && |q.accepted| == q.appl
              && (forall k :: 0 <= k < q.appl <= k + |q.ring| ==> q.ring[k % |q.ring|] == q.accepted[k])
              && (forall j :: q.appl <= j < |q.ring| ==> q.ring[j] == SILENCE)
    ensures NoFreshStart(fs) ==> q.hw <= r.hw
  {
    hide Step;
    RunKeeps(p, es, q);
    RunKeeps(q, fs, r);
  }

  // ---------- the clock over whole runs ----------

  /** The latest time the events of a run have seen. */
  ghost function Clock(now: nat, e: Event): nat {
    match e
    case ESync(t) => Max(now, t)
    case ESyncPtr(t) => Max(now, t)
    case EStart(t) => Max(now, t)
    case EWritei(t, _, _, _) => Max(now, t)
    case _ => now
  }

  ghost function Latest(now: nat, es: seq<Event>): nat
    decreases |es|
  {
    if es == [] then now else Latest(Clock(now, es[0]), es[1..])
  }

  lemma StepFollowsTheClock(p: Pcm, e: Event, now: nat)
    requires Inv(p) && Enabled(p, e) && p.hw <= 480 * Ticks(p, now)
    ensures Step(p, e).hw <= 480 * Ticks(Step(p, e), Clock(now, e))
    ensures (p.state == Prepared || e.EPrepare?) || Step(p, e).runTick == p.runTick
    ensures !e.EPrepare? && p.state != Prepared ==> Step(p, e).state != Prepared
  {
    hide Holds, RingWrite;
    match e {
      case ESync(t) => SyncFollowsTheClock(p, t);
      case ESyncPtr(t) => SyncFollowsTheClock(p, t);
      case EWritei(t, _, _, _) => SyncFollowsTheClock(p, t);
      case _ =>
    }
  }

  lemma {:induction false} RunFollowsTheClock(p: Pcm, es: seq<Event>, q: Pcm, now: nat)
    requires Inv(p) && Reaches(p, es, q) && p.hw <= 480 * Ticks(p, now)
    ensures q.hw <= 480 * Ticks(q, Latest(now, es))
    ensures NoFreshStart(es) && p.state != Prepared ==> q.runTick == p.runTick
    decreases |es|
  {
    if es != [] {
      StepKeeps(p, es[0]);
      StepFollowsTheClock(p, es[0], now);
      hide Inv, Step, Ticks, Enabled;
      RunFollowsTheClock(Step(p, es[0]), es[1..], q, Clock(now, es[0]));
    }
  }

  /** From a start at tick t on, until the stream is prepared or opened anew: the hardware pointer is at
      most 480 frames a tick since then, and the slot of frame k is written a second time only once the
      clock has passed that frame. */
  lemma PlayedBeforeOverwritten(p: Pcm, t: nat, es: seq<Event>, q: Pcm, k: nat)
    requires Inv(p) && p.state == Running && p.hw == 0 && p.runTick == t
    requires Reaches(p, es, q) && NoFreshStart(es)
    ensures var ticks := Latest(t, es) - t;
            && Latest(t, es) >= t && q.hw <= 480 * ticks
            && (Active(q.state) && k + |q.ring| < q.appl ==> k < 480 * ticks)
  {
    RunKeeps(p, es, q);
    RunFollowsTheClock(p, es, q, t);
    LatestGrows(t, es);
    hide Holds, Reaches, Latest;
  }

  lemma {:induction false} LatestGrows(now: nat, es: seq<Event>)
    ensures Latest(now, es) >= now
    decreases |es|
  {
    if es != [] {
      LatestGrows(Clock(now, es[0]), es[1..]);
    }
  }

  /** The frames the clock has played of those written. */
  ghost function Played(p: Pcm, now: nat): nat {
    if p.state == Running then Max(p.hw, Min(p.appl, 480 * Ticks(p, now))) else p.hw
  }

  /** What a write answers, and what it leaves: as many frames as there is room beyond those queued, counted
      by the clock; a prepared stream starts when its threshold is reached. */
  lemma WriteiAnswers(p: Pcm, now: nat, data: seq<Frame>, readable: bool, writable: bool)
    requires Inv(p)
    ensures var (q, r) := Writei(p, now, data, readable, writable);
            if p.state == Open || p.state == Setup then r == EBADFD && q == p
            else if p.state == Xrun then r == EPIPE && q == p
            else
              var queued := p.appl - Played(p, now);
              && 0 <= queued <= p.buffer
              && var n := Min(|data|, p.buffer - queued);
                 && (r == EAGAIN <==> n == 0)
                 && (r == Accepted(n) <==> n > 0 && readable && writable)
                 && (r == EFAULT <==> n > 0 && !(readable && writable))
                 && q.accepted == (if readable then p.accepted + data[..n] else p.accepted)
                 && q.appl == |q.accepted|
                 && var starts := n > 0 && readable && p.state == Prepared && q.appl >= p.startThreshold;
                    && q.state == (if starts then Running else p.state)
                    && q.runTick == (if starts then now else p.runTick)
                    && q.hw == Played(p, now)
  {
    SyncFollowsTheClock(p, now);
    hide Holds, RingWrite;
    var q := Sync(p, now);
    assert q.hw == Played(p, now);
  }

  // ---------- when a stream takes frames, and when it stands still ----------

  /** Calls after which the stream has to be prepared before it takes frames. */
  ghost predicate Ends(p: Pcm, e: Event)
    requires |p.ring| < U32 && Enabled(p, e)
  {
    || e.EOpen? || e.EClose? || e.EHwFree? || e.EDrop?
    || (e.EHwParams? && H.Refine(e.block, |p.ring|).Some?)
  }

  /** Some call of the run prepared the stream, or it was so before, and none after that ended it. */
  ghost predicate PreparedSince(p: Pcm, es: seq<Event>, before: bool)
    requires Reaches(p, es, After(p, es))
    decreases |es|
  {
    if es == [] then before
    else PreparedSince(Step(p, es[0]), es[1..], es[0].EPrepare? || (before && !Ends(p, es[0])))
  }

  ghost function After(p: Pcm, es: seq<Event>): Pcm
    decreases |es|
  {
    if es == [] then p
    else if 2048 <= |p.ring| < U32 && p.buffer <= |p.ring| && Enabled(p, es[0])
    then After(Step(p, es[0]), es[1..]) else p
  }

  lemma StepTakesFrames(p: Pcm, e: Event)
    requires Inv(p) && Enabled(p, e)
    ensures Active(Step(p, e).state) <==> e.EPrepare? || (Active(p.state) && !Ends(p, e))
  {
    hide Holds, RingWrite, H.Refine;
  }

  lemma {:induction false} RunTakesFrames(p: Pcm, es: seq<Event>)
    requires Inv(p) && Reaches(p, es, After(p, es))
    ensures Inv(After(p, es))
    ensures Active(After(p, es).state) <==> PreparedSince(p, es, Active(p.state))
    decreases |es|
  {
    if es != [] {
      StepKeeps(p, es[0]);
      StepTakesFrames(p, es[0]);
      hide Step, Ends, Active;
      RunTakesFrames(Step(p, es[0]), es[1..]);
    }
  }

  /** After every run of a stream just opened a write is refused as out of order exactly when the stream
      was not prepared since it was last opened, closed, freed, given parameters or dropped. */
  lemma OutOfOrder(p: Pcm, es: seq<Event>, now: nat, data: seq<Frame>, readable: bool, writable: bool)
    requires Opened(p) && Reaches(p, es, After(p, es))
    ensures After(p, es).buffer <= |After(p, es).ring|
    ensures Writei(After(p, es), now, data, readable, writable).1 == EBADFD <==> !PreparedSince(p, es, false)
  {
    RunTakesFrames(p, es);
    hide Holds, Reaches, After, PreparedSince, Sync, Take, MaybeStart;
  }

  /** Pausing stops the hardware pointer, whatever is called until the stream resumes or starts anew; but
      the clock runs on: resuming leaves the stream as it was, so that the time paused counts as played. */
  lemma {:induction false} PausedStandsStill(p: Pcm, es: seq<Event>, q: Pcm)
    requires Inv(p) && p.state == Running && Reaches(Step(p, EPause(true)), es, q)
    requires NoFreshStart(es) && forall i :: 0 <= i < |es| ==> es[i] != EPause(false)
    ensures q.hw == p.hw
    ensures Step(Step(p, EPause(true)), EPause(false)) == p
  {
    StepKeeps(p, EPause(true));
    StandsStill(Step(p, EPause(true)), es, q);
  }

  lemma {:induction false} StandsStill(p: Pcm, es: seq<Event>, q: Pcm)
    requires Inv(p) && p.state != Running && p.state != Prepared && Reaches(p, es, q)
    requires NoFreshStart(es) && forall i :: 0 <= i < |es| ==> es[i] != EPause(false)
    ensures q.hw == p.hw && q.state != Running
    decreases |es|
  {
    if es != [] {
      StepKeeps(p, es[0]);
      StillStep(p, es[0]);
      hide Step, Inv;
      StandsStill(Step(p, es[0]), es[1..], q);
    }
  }

  lemma StillStep(p: Pcm, e: Event)
    requires Inv(p) && p.state != Running && p.state != Prepared && Enabled(p, e)
    requires !e.EOpen? && !e.EPrepare? && e != EPause(false)
    ensures Step(p, e).hw == p.hw && Step(p, e).state != Running && Step(p, e).state != Prepared
  {
    hide Holds, RingWrite;
  }

  /** Opening leaves a silent ring, and the buffer agreed on before if it fits, else the whole ring. */
  lemma OpenKeepsTheBuffer(p: Pcm, frames: nat)
    requires Inv(p) && 2048 <= frames < U32
    ensures var q := Step(p, EOpen(frames));
            Opened(q) && |q.ring| == frames && q.buffer == if 0 < p.buffer <= frames then p.buffer else frames
  {
  }

  /** A prepared stream starts with the write that takes it to the threshold set, and not before. */
  lemma StartsAtTheThreshold(p: Pcm, availMin: nat, start: nat, now: nat, data: seq<Frame>)
    requires Inv(p) && p.state == Prepared
    ensures var q := Writei(Step(p, ESwParams(availMin, start)), now, data, true, true).0;
            q.state == Running <==> q.appl > p.appl && q.appl >= start
  {
    var s := Step(p, ESwParams(availMin, start));
    assert Inv(s);
    WriteiAnswers(s, now, data, true, true);
    hide Holds, RingWrite, Writei;
  }

  /** A prepared stream that is started at tick t has, at any later tick, played all the clock allows of what was written:
      by START at once, by SYNC_PTR when the threshold is reached, and not at all before. */
  lemma PlaysFromTheStart(p: Pcm, t: nat, now: nat)
    requires Inv(p) && p.state == Prepared && t <= now
    ensures Sync(Step(p, EStart(t)), now).hw == Min(p.appl, 480 * (now - t))
    ensures Sync(Step(p, ESyncPtr(t)), now).hw == if p.appl >= p.startThreshold then Min(p.appl, 480 * (now - t)) else 0
  {
    hide Holds;
  }

  /** Starting a stream that is not prepared does nothing. */
  lemma StartsOnlyPrepared(p: Pcm, t: nat)
    requires Inv(p) && p.state != Prepared
    ensures Step(p, EStart(t)) == p && Step(p, ESyncPtr(t)) == Sync(p, t)
  {
  }

  /** HW_PARAMS commits the period and the buffer it hands back, or refuses and changes nothing. */
  lemma CommitsWhatItAnswers(p: Pcm, block: seq<u32>)
    requires Inv(p) && |block| == H.WORDS
    ensures var q := Step(p, EHwParams(block));
            match H.Refine(block, |p.ring|)
            case None => q == p
            case Some(r) => |r.words| == 152 && q == p.(period := r.words[80], buffer := r.words[92], state := Setup)
  {
    hide H.Refine;
    if H.Refine(block, |p.ring|).Some? {
      H.RefineGives(block, |p.ring|);
    }
  }

  /** Closing or dropping silences the ring. */
  lemma SilentWhenClosed(p: Pcm, e: Event, k: nat)
    requires Inv(p) && (e.EClose? || e.EDrop? || e.EPrepare?) && k < |p.ring|
    ensures |Step(p, e).ring| == |p.ring| && Step(p, e).ring[k] == SILENCE
  {
  }

  /** The parameters a refine may commit to fit the ring if and only if the ring has the
      2048 frames the refine takes for granted. */
  lemma RefineFitsTheRing(frames: u32)
    ensures (forall p, b :: Fits(p, b, frames)) <==> 2048 <= frames
  {
    hide H.Sizes;
    if 2048 <= frames {
      forall p, b
        ensures Fits(p, b, frames)
      {
        if H.Sizes(p, b, Max(frames, 2048)).Some? {
          H.SizesOk(p, b, frames);
        }
      }
    } else {
      WideOpen();
      assert !Fits((0, 4096), (0, 4096), frames);
    }
  }

  /** A client with no wishes, on a ring of 2048 frames. */
  lemma WideOpen()
    ensures H.Sizes((0, 4096), (0, 4096), 2048) == Some((1024, 2048))
  {
  }

  /** What the client's intervals lead to, with the ring size as HW_PARAMS reads it. */
  ghost predicate Fits(p: (u32, u32), b: (u32, u32), frames: u32) {
    var s := H.Sizes(p, b, Max(frames, 2048));
    s.Some? ==> s.value.1 <= frames
  }

  // ---------- the device ----------

  class PcmDevice {
    var state: State
    var ring: array<Frame>
    var period: nat
    var buffer: nat
    var appl: nat
    var hw: nat
    var runTick: nat
    var availMin: nat
    var startThreshold: nat
    ghost var accepted: seq<Frame>

    ghost function Abs(): Pcm
      reads this, ring
    {
      Pcm(state, ring[..], period, buffer, appl, hw, runTick, availMin, startThreshold, accepted)
    }

    ghost predicate Valid()
      reads this, ring
    {
      Inv(Abs())
    }

    /** Opening a device with a ring of this many frames. */
    constructor (frames: nat)
      requires 2048 <= frames < U32
      ensures Valid() && fresh(ring) && Opened(Abs()) && |Abs().ring| == frames && Abs().buffer == frames
    {
      state, period, buffer, appl, hw := Open, 1024, frames, 0, 0;
      runTick, availMin, startThreshold := 0, 1, 1;
      ring := new Frame[frames](_ => SILENCE);
      accepted := [];
      new;
      assert ring[..] == Zeroed(frames);
    }

    /** Copy frames into one unbroken stretch of the ring. */
    method CopyIn(off: nat, data: seq<Frame>)
      requires off + |data| <= ring.Length
      modifies ring
      ensures ring[..] == Overlay(old(ring[..]), off, data)
    {
      for i := 0 to |data|
        invariant forall x :: 0 <= x < ring.Length ==> ring[x] == if off <= x < off + i then data[x - off] else old(ring[x])
      {
        ring[off + i] := data[i];
      }
    }

    method CopyRound(off: nat, data: seq<Frame>)
      requires off < ring.Length && |data| <= ring.Length
      modifies ring
      ensures ring[..] == RingWrite(old(ring[..]), off, data)
    {
      hide Overlay;
      var first := Min(ring.Length - off, |data|);
      CopyIn(off, data[..first]);
      CopyIn(0, data[first..]);
    }

    /** Copy frames into the ring at `off`, wrapping at its end. */
    method PcmWrite(off: nat, data: seq<Frame>)
      requires 0 < ring.Length
      modifies ring
      ensures ring[..] == RingWriteAll(old(ring[..]), SlotOf(off, ring.Length), data)
    {
      hide RingWrite, RingWriteAll, SlotOf;
      var o: nat, i: nat := SlotOf(off, ring.Length), 0;
      ghost var all := RingWriteAll(ring[..], o, data);
      assert data[0..] == data;
      while i < |data|
        invariant 0 <= i <= |data| && o < ring.Length
        invariant RingWriteAll(ring[..], o, data[i..]) == all
      {
        var n := Min(ring.Length, |data| - i);
        NextChunk(ring[..], o, data[i..], n);
        assert data[i..][..n] == data[i..i + n] && data[i..][n..] == data[i + n..];
        CopyRound(o, data[i..i + n]);
        o, i := SlotOf(o + n, ring.Length), i + n;
      }
      NoMoreData(ring[..], o);
      assert data[i..] == [];
    }

    /** Silence the slots between two offsets, wrapping; `to` may exceed the size. */
    method PcmZero(from: nat, to: nat)
      requires 0 < ring.Length
      modifies ring
      ensures ring[..] == Silenced(old(ring[..]), from, to)
    {
      var n, o := Min(Monus(to, from), ring.Length), from % ring.Length;
      var first := Min(ring.Length - o, n);
      for i := 0 to first
        invariant forall x :: 0 <= x < ring.Length ==> ring[x] == if o <= x < o + i then SILENCE else old(ring[x])
      {
        ring[o + i] := SILENCE;
      }
      for i := 0 to n - first
        invariant forall x :: 0 <= x < ring.Length ==>
                    ring[x] == if x < i || o <= x < o + first then SILENCE else old(ring[x])
      {
        ring[i] := SILENCE;
      }
    }

    method SyncNow(now: nat)
      requires Valid()
      modifies this`hw
      ensures Valid() && Abs() == Step(old(Abs()), ESync(now))
    {
      StepKeeps(Abs(), ESync(now));
      if ring.Length == 0 || state != Running {
        return;
      }
      var target := Monus(now, runTick) * 480;
      if target > hw {
        hw := Min(target, appl);
      }
    }

    method Prepare()
      requires Valid()
      modifies this, ring
      ensures Valid() && Abs() == Step(old(Abs()), EPrepare) && ring == old(ring)
    {
      StepKeeps(Abs(), EPrepare);
      SilencedAll(ring[..]);
      PcmZero(0, ring.Length);
      appl, hw, state := 0, 0, Prepared;
      accepted := [];
    }

    method Start(now: nat) returns (ok: bool)
      requires Valid()
      modifies this
      ensures Valid() && Abs() == Step(old(Abs()), EStart(now)) && ok == (old(state) == Prepared) && ring == old(ring)
    {
      StepKeeps(Abs(), EStart(now));
      ok := state == Prepared;
      if ok {
        state, runTick, hw := Running, now, 0;
      }
    }

    method WriteFrames(now: nat, data: seq<Frame>, readable: bool, writable: bool) returns (r: Reply)
      requires Valid()
      modifies this, ring
      ensures Valid() && (Abs(), r) == Writei(old(Abs()), now, data, readable, writable) && ring == old(ring)
    {
      hide Inv, Holds, RingWrite;
      ghost var p := Abs();
      WriteiKeeps(p, now, data, readable, writable);
      RingSize(p);
      if state == Open || state == Setup {
        return EBADFD;
      }
      SyncNow(now);
      if state == Xrun {
        return EPIPE;
      }
      var room := Monus(buffer, Monus(appl, hw));
      var n := Min(|data|, room);
      if n == 0 {
        return EAGAIN;
      }
      if !readable {
        return EFAULT;
      }
      AvailFits(Abs());
      PcmWrite(appl % ring.Length, data[..n]);
      appl := appl + n;
      accepted := accepted + data[..n];
      if state == Prepared && appl >= startThreshold {
        state, runTick, hw := Running, now, 0;
      }
      return if writable then Accepted(n) else EFAULT;
    }
  }

  lemma AvailFits(p: Pcm)
    requires p.buffer <= |p.ring|
    ensures Avail(p) <= |p.ring|
    ensures 0 < |p.ring| ==> p.appl % |p.ring| % |p.ring| == p.appl % |p.ring|
  {
  }

  lemma NextChunk(ring: seq<Frame>, o: nat, d: seq<Frame>, n: nat)
    requires o < |ring| && n == Min(|ring|, |d|)
    ensures RingWriteAll(ring, o, d) == RingWriteAll(RingWrite(ring, o, d[..n]), SlotOf(o + n, |ring|), d[n..])
  {
    hide RingWrite, SlotOf;
    if n == |d| {
      assert d[..n] == d && d[n..] == [];
      NoMoreData(RingWrite(ring, o, d), SlotOf(o + n, |ring|));
    } else {
      FullTurn(o, n);
    }
  }

  lemma FullTurn(o: nat, n: nat)
    requires o < n
    ensures SlotOf(o + n, n) == o
  {
    WholeTurn(o, n);
  }

  /** The slot of a position. */
  function SlotOf(a: nat, size: nat): (s: nat)
    requires 0 < size
    ensures s < size
  {
    a % size
  }

  lemma NoMoreData(ring: seq<Frame>, o: nat)
    requires o < |ring|
    ensures RingWriteAll(ring, o, []) == ring
  {
  }

  lemma SilencedAll(ring: seq<Frame>)
    requires ring != []
    ensures Silenced(ring, 0, |ring|) == Zeroed(|ring|)
  {
  }

  lemma RingSize(p: Pcm)
    requires Inv(p)
    ensures 2048 <= |p.ring| < U32 && p.buffer <= |p.ring|
  {
  }
}
