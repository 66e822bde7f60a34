/** The dynamic linker's input as words of memory, and what linking makes of it.

    The stack, the program's headers, its dynamic section and the library's tables are described here by
    what a load at each address gives, with the tag numbers of the System V ABI written out. */
module LinkImages {
  import opened Bytes
  import opened Common
  import opened LinkMemory
  import opened LinkTables
  import opened Linking

  // ---------- tables of tags and values ----------

  ghost function TagAt(m: Memory, a: nat, k: nat): Read<u64> {
    Load(m, a + 16 * k, 8)
  }

  ghost function ValueAt(m: Memory, a: nat, k: nat): Read<u64> {
    Load(m, a + 16 * k + 8, 8)
  }

  ghost predicate PairAt(m: Memory, a: nat, k: nat) {
    TagAt(m, a, k).Got? && TagAt(m, a, k).value != 0 && ValueAt(m, a, k).Got?
  }

  /** n pairs from a on, and then a zero tag. */
  ghost predicate Table(m: Memory, a: nat, n: nat) {
    (forall k :: 0 <= k < n ==> PairAt(m, a, k)) && TagAt(m, a, n) == Got(0)
  }

  /** The last pair with this tag, among the first n, has value v. */
  ghost predicate LastIs(m: Memory, a: nat, n: nat, tag: u64, v: u64) {
    exists j :: && 0 <= j < n && TagAt(m, a, j) == Got(tag) && ValueAt(m, a, j) == Got(v)
                && forall k :: j < k < n ==> TagAt(m, a, k) != Got(tag)
  }

  ghost predicate Lacks(m: Memory, a: nat, n: nat, tag: u64) {
    forall k :: 0 <= k < n ==> TagAt(m, a, k) != Got(tag)
  }

  /** The value of a tag, 0 when the table has none. */
  ghost predicate Says(m: Memory, a: nat, n: nat, tag: u64, v: u64) {
    LastIs(m, a, n, tag, v) || (Lacks(m, a, n, tag) && v == 0)
  }

  /** The address a tag gives: its value over the base, none when the table has no such tag. */
  ghost predicate Gives(m: Memory, a: nat, n: nat, tag: u64, v: Option<u64>) {
    match v
    case Some(x) => LastIs(m, a, n, tag, x)
    case None => Lacks(m, a, n, tag)
  }

  ghost function Over(base: u64, v: Option<u64>): u64 {
    if v.Some? then Wrap(base + v.value) else 0
  }

  ghost function PairsOf(m: Memory, a: nat, n: nat): (ps: seq<(u64, u64)>)
    requires forall k :: 0 <= k < n ==> PairAt(m, a, k)
    ensures |ps| == n
  {
    seq(n, k requires 0 <= k < n => assert PairAt(m, a, k); (TagAt(m, a, k).value, ValueAt(m, a, k).value))
  }

  lemma {:induction false} PairsFrom(m: Memory, a: nat, n: nat, k: nat)
    requires Table(m, a, n) && k <= n
    ensures Pairs(m, a + 16 * k, PairsOf(m, a, n)[..k]) == Got(PairsOf(m, a, n))
    decreases n - k
  {
    hide Load;
    var ps := PairsOf(m, a, n);
    if k < n {
      assert PairAt(m, a, k);
      assert ps[..k + 1] == ps[..k] + [ps[k]];
      assert a + 16 * (k + 1) == a + 16 * k + 16;
      PairsFrom(m, a, n, k + 1);
    } else {
      assert ps[..k] == ps;
    }
  }

  lemma TableIsPairs(m: Memory, a: nat, n: nat)
    requires Table(m, a, n)
    ensures Pairs(m, a, []) == Got(PairsOf(m, a, n))
  {
    PairsFrom(m, a, n, 0);
    assert PairsOf(m, a, n)[..0] == [];
  }

  lemma {:induction false} LastOfLast(ps: seq<(u64, u64)>, tag: u64, base: u64, j: nat)
    requires j < |ps| && ps[j].0 == tag && forall k :: j < k < |ps| ==> ps[k].0 != tag
    ensures LastOf(ps, tag, base) == Wrap(base + ps[j].1)
    decreases |ps|
  {
    if j < |ps| - 1 {
      LastOfLast(ps[..|ps| - 1], tag, base, j);
    }
  }

  lemma {:induction false} LastOfNone(ps: seq<(u64, u64)>, tag: u64, base: u64)
    requires forall k :: 0 <= k < |ps| ==> ps[k].0 != tag
    ensures LastOf(ps, tag, base) == 0
    decreases |ps|
  {
    if ps != [] {
      LastOfNone(ps[..|ps| - 1], tag, base);
    }
  }

  lemma TagOver(m: Memory, a: nat, n: nat, tag: u64, base: u64, v: Option<u64>)
    requires Table(m, a, n) && Gives(m, a, n, tag, v)
    ensures LastOf(PairsOf(m, a, n), tag, base) == Over(base, v)
  {
    hide Load, Wrap, TagAt, ValueAt;
    var ps := PairsOf(m, a, n);
    forall k | 0 <= k < n
      ensures TagAt(m, a, k) == Got(ps[k].0) && ValueAt(m, a, k) == Got(ps[k].1)
    {
      assert PairAt(m, a, k);
    }
    if v.Some? {
      var j :| && 0 <= j < n && TagAt(m, a, j) == Got(tag) && ValueAt(m, a, j) == Got(v.value)
               && forall k :: j < k < n ==> TagAt(m, a, k) != Got(tag);
      LastOfLast(ps, tag, base, j);
    } else {
      LastOfNone(ps, tag, base);
    }
  }

  lemma TagSays(m: Memory, a: nat, n: nat, tag: u64, v: u64)
    requires Table(m, a, n) && Says(m, a, n, tag, v)
    ensures LastOf(PairsOf(m, a, n), tag, 0) == v
  {
    if LastIs(m, a, n, tag, v) {
      TagOver(m, a, n, tag, 0, Some(v));
    } else {
      TagOver(m, a, n, tag, 0, None);
    }
  }

  // ---------- environment and program headers ----------

  ghost function WordAt(m: Memory, a: nat, k: nat): Read<u64> {
    Load(m, a + 8 * k, 8)
  }

  /** n words that are not zero, and then a zero. */
  ghost predicate Environment(m: Memory, a: nat, n: nat) {
    && (forall k :: 0 <= k < n ==> WordAt(m, a, k).Got? && WordAt(m, a, k).value != 0)
    && WordAt(m, a, n) == Got(0)
  }

  lemma {:induction false} EnvironmentSkipped(m: Memory, a: nat, n: nat, k: nat)
    requires Environment(m, a, n) && k <= n
    ensures SkipEnvironment(m, a + 8 * k) == Got(a + 8 * n + 8)
    decreases n - k
  {
    hide Load;
    if k < n {
      assert WordAt(m, a, k).value != 0;
      assert a + 8 * (k + 1) == a + 8 * k + 8;
      EnvironmentSkipped(m, a, n, k + 1);
    } else {
      assert WordAt(m, a, n) == Got(0);
    }
  }

  ghost function KindAt(m: Memory, headers: u64, k: nat): Read<u64> {
    Load(m, Wrap(headers + 56 * k), 4)
  }

  ghost predicate OtherKind(m: Memory, headers: u64, k: nat) {
    KindAt(m, headers, k).Got? && KindAt(m, headers, k).value != 2
  }

  /** The first of n program headers of type PT_DYNAMIC has this address; 0 when there is none. */
  ghost predicate Segment(m: Memory, headers: u64, n: nat, vaddr: u64) {
    || (exists d :: && 0 <= d < n && KindAt(m, headers, d) == Got(2)
                    && Load(m, Wrap(headers + 56 * d) as nat + 16, 8) == Got(vaddr)
                    && forall k :: 0 <= k < d ==> OtherKind(m, headers, k))
    || (vaddr == 0 && forall k :: 0 <= k < n ==> OtherKind(m, headers, k))
  }

  lemma {:induction false} SegmentAt(m: Memory, headers: u64, n: nat, d: nat, vaddr: u64, i: nat)
    requires i <= d <= n && forall k :: 0 <= k < d ==> OtherKind(m, headers, k)
    requires if d < n
             then KindAt(m, headers, d) == Got(2) && Load(m, Wrap(headers + 56 * d) as nat + 16, 8) == Got(vaddr)
             else vaddr == 0
    ensures FindDynamic(m, headers, i, n) == Got(vaddr)
    decreases d - i
  {
    hide Load;
    assert headers + i * 56 == headers + 56 * i;
    if i < d {
      assert OtherKind(m, headers, i);
      SegmentAt(m, headers, n, d, vaddr, i + 1);
    }
  }

  lemma SegmentFound(m: Memory, headers: u64, n: nat, vaddr: u64)
    requires Segment(m, headers, n, vaddr)
    ensures FindDynamic(m, headers, 0, n) == Got(vaddr)
  {
    hide Load, KindAt, FindDynamic;
    if d :| && 0 <= d < n && KindAt(m, headers, d) == Got(2)
            && Load(m, Wrap(headers + 56 * d) as nat + 16, 8) == Got(vaddr)
            && forall k :: 0 <= k < d ==> OtherKind(m, headers, k) {
      SegmentAt(m, headers, n, d, vaddr, 0);
    } else {
      SegmentAt(m, headers, n, n, 0, 0);
    }
  }

  // ---------- the program ----------

  /** What the kernel leaves on the stack and in the image: numbers of arguments, environment words and
      auxiliary pairs, the auxiliary values, the dynamic section and its values. */
  datatype Program = Program(argc: nat, env: nat, aux: nat, entry: u64, phdr: u64, phnum: u64, exe: u64, libc: u64,
                             vaddr: u64, dyn: nat, symtab: Option<u64>, strtab: Option<u64>,
                             jmprel: Option<u64>, pltrelsz: u64, rela: Option<u64>, relasz: u64)

  ghost function EnvironmentAt(sp: u64, p: Program): u64 {
    Wrap(sp + 8 * (p.argc + 2))
  }

  /** AT_ENTRY, AT_PHDR, AT_PHNUM and the two load bases, after argc, argv, a null, the environment and a null. */
  ghost predicate Stack(m: Memory, sp: u64, p: Program) {
    && Load(m, sp, 8) == Got(p.argc) && Environment(m, EnvironmentAt(sp, p), p.env)
    && var a := EnvironmentAt(sp, p) + 8 * p.env + 8;
       && Table(m, a, p.aux)
       && Says(m, a, p.aux, 9, p.entry) && Says(m, a, p.aux, 3, p.phdr) && Says(m, a, p.aux, 5, p.phnum)
       && Says(m, a, p.aux, 0x6E01, p.exe) && Says(m, a, p.aux, 0x6E02, p.libc)
  }

  /** DT_SYMTAB, DT_STRTAB, DT_JMPREL, DT_PLTRELSZ, DT_RELA and DT_RELASZ of the dynamic section. */
  ghost predicate Dynamic(m: Memory, p: Program) {
    && Segment(m, p.phdr, p.phnum, p.vaddr)
    && var d: nat := Wrap(p.exe + p.vaddr);
       && Table(m, d, p.dyn)
       && Gives(m, d, p.dyn, 6, p.symtab) && Gives(m, d, p.dyn, 5, p.strtab)
       && Gives(m, d, p.dyn, 23, p.jmprel) && Says(m, d, p.dyn, 2, p.pltrelsz)
       && Gives(m, d, p.dyn, 7, p.rela) && Says(m, d, p.dyn, 8, p.relasz)
  }

  ghost function ContextOf(p: Program): Context {
    Context(p.exe, p.libc, Over(p.exe, p.symtab), Over(p.exe, p.strtab))
  }

  ghost predicate AuxIs(aux: seq<(u64, u64)>, p: Program) {
    && LastOf(aux, AT_ENTRY, 0) == p.entry && LastOf(aux, AT_PHDR, 0) == p.phdr && LastOf(aux, AT_PHNUM, 0) == p.phnum
    && LastOf(aux, AT_EURO_EXE_BASE, 0) == p.exe && LastOf(aux, AT_EURO_LIBC_BASE, 0) == p.libc
  }

  ghost predicate DynIs(dyn: seq<(u64, u64)>, p: Program) {
    && LastOf(dyn, DT_SYMTAB, p.exe) == Over(p.exe, p.symtab) && LastOf(dyn, DT_STRTAB, p.exe) == Over(p.exe, p.strtab)
    && LastOf(dyn, DT_JMPREL, p.exe) == Over(p.exe, p.jmprel) && LastOf(dyn, DT_PLTRELSZ, 0) == p.pltrelsz
    && LastOf(dyn, DT_RELA, p.exe) == Over(p.exe, p.rela) && LastOf(dyn, DT_RELASZ, 0) == p.relasz
  }

  lemma StackRead(m: Memory, sp: u64, p: Program) returns (a: nat, aux: seq<(u64, u64)>)
    requires Stack(m, sp, p)
    ensures Load(m, sp, 8) == Got(p.argc) && SkipEnvironment(m, Wrap(sp + (p.argc + 2) * 8)) == Got(a)
    ensures Pairs(m, a, []) == Got(aux) && AuxIs(aux, p)
  {
    hide Load, Wrap, Environment, Table, Says, LastOf, Pairs, SkipEnvironment;
    var e: nat := EnvironmentAt(sp, p);
    a := e + 8 * p.env + 8;
    assert sp + 8 * (p.argc + 2) == sp + (p.argc + 2) * 8;
    EnvironmentSkipped(m, e, p.env, 0);
    TableIsPairs(m, a, p.aux);
    aux := Pairs(m, a, []).value;
    TagSays(m, a, p.aux, 9, p.entry);
    TagSays(m, a, p.aux, 3, p.phdr);
    TagSays(m, a, p.aux, 5, p.phnum);
    TagSays(m, a, p.aux, 0x6E01, p.exe);
    TagSays(m, a, p.aux, 0x6E02, p.libc);
  }

  lemma DynamicRead(m: Memory, p: Program) returns (dyn: seq<(u64, u64)>)
    requires Dynamic(m, p)
    ensures FindDynamic(m, p.phdr, 0, p.phnum) == Got(p.vaddr)
    ensures Pairs(m, Wrap(p.exe + p.vaddr), []) == Got(dyn) && DynIs(dyn, p)
  {
    hide Load, Segment, Table, Says, Gives, LastOf, Pairs, FindDynamic, Over;
    var d: nat := Wrap(p.exe + p.vaddr);
    SegmentFound(m, p.phdr, p.phnum, p.vaddr);
    TableIsPairs(m, d, p.dyn);
    dyn := Pairs(m, d, []).value;
    TagOver(m, d, p.dyn, 6, p.exe, p.symtab);
    TagOver(m, d, p.dyn, 5, p.exe, p.strtab);
    TagOver(m, d, p.dyn, 23, p.exe, p.jmprel);
    TagSays(m, d, p.dyn, 2, p.pltrelsz);
    TagOver(m, d, p.dyn, 7, p.exe, p.rela);
    TagSays(m, d, p.dyn, 8, p.relasz);
  }

  /** Entry k of a table of this size is at r. */
  ghost predicate Entry(table: u64, size: u64, k: nat, r: nat) {
    table != 0 && 24 * k + 24 <= size && r == Wrap(table + 24 * k)
  }

  /** r is the address of a whole entry of DT_JMPREL or of DT_RELA. */
  ghost predicate IsEntry(p: Program, r: nat) {
    || (exists k: nat :: Entry(Over(p.exe, p.jmprel), p.pltrelsz, k, r))
    || (exists k: nat :: Entry(Over(p.exe, p.rela), p.relasz, k, r))
  }

  lemma RowsAreEntries(table: u64, size: u64, r: nat)
    ensures r in EntriesOf(table, size) <==> exists k: nat :: Entry(table, size, k, r)
  {
    var rs := Rows(table, size);
    if table != 0 && r in rs {
      var i :| 0 <= i < |rs| && rs[i] == r;
      assert Entry(table, size, i, r);
    }
    if k: nat :| Entry(table, size, k, r) {
      assert k < |rs| && rs[k] == r;
    }
  }

  ghost function EntriesOf(table: u64, size: u64): seq<nat> {
    if table != 0 then Rows(table, size) else []
  }

  lemma StartGot(m: Memory, sp: u64, p: Program)
    requires Stack(m, sp, p) && Dynamic(m, p)
    ensures ReadStart(m, sp) == Got(Start(p.entry, ContextOf(p), EntriesOf(Over(p.exe, p.jmprel), p.pltrelsz),
                                          EntriesOf(Over(p.exe, p.rela), p.relasz)))
  {
    hide Load, Stack, Dynamic, LastOf, Pairs, FindDynamic, SkipEnvironment, Over, Rows, Wrap, Mapped;
    var a, aux := StackRead(m, sp, p);
    var dyn := DynamicRead(m, p);
    StartFrom(m, sp, p, a, aux, dyn);
  }

  lemma StartFrom(m: Memory, sp: u64, p: Program, a: nat, aux: seq<(u64, u64)>, dyn: seq<(u64, u64)>)
    requires Load(m, sp, 8) == Got(p.argc) && SkipEnvironment(m, Wrap(sp + (p.argc + 2) * 8)) == Got(a)
    requires Pairs(m, a, []) == Got(aux) && AuxIs(aux, p)
    requires FindDynamic(m, p.phdr, 0, p.phnum) == Got(p.vaddr)
    requires Pairs(m, Wrap(p.exe + p.vaddr), []) == Got(dyn) && DynIs(dyn, p)
    ensures ReadStart(m, sp) == Got(Start(p.entry, ContextOf(p), EntriesOf(Over(p.exe, p.jmprel), p.pltrelsz),
                                          EntriesOf(Over(p.exe, p.rela), p.relasz)))
  {
    hide Load, LastOf, Pairs, FindDynamic, SkipEnvironment, Over, Rows, Wrap, Mapped;
  }

  /** The linker starts from exactly what stack and dynamic section say: both tables, every whole entry. */
  lemma StartIs(m: Memory, sp: u64, p: Program)
    requires Stack(m, sp, p) && Dynamic(m, p)
    ensures ReadStart(m, sp).Got?
    ensures var s := ReadStart(m, sp).value;
            && s.entry == p.entry && s.c == ContextOf(p)
            && forall r :: r in s.plt + s.rela <==> IsEntry(p, r)
  {
    StartGot(m, sp, p);
    hide ReadStart, Stack, Dynamic, Over, Entry, EntriesOf;
    var s := ReadStart(m, sp).value;
    forall r: nat
      ensures r in s.plt + s.rela <==> IsEntry(p, r)
    {
      RowsAreEntries(Over(p.exe, p.jmprel), p.pltrelsz, r);
      RowsAreEntries(Over(p.exe, p.rela), p.relasz, r);
    }
  }

  // ---------- strings and the library's symbols ----------

  /** The bytes s at a, none of them zero, and then a zero. */
  ghost predicate StringAt(m: Memory, a: nat, s: seq<byte>) {
    && a + |s| < U64 && (forall i :: 0 <= i < |s| ==> a + i in m && m[a + i] == s[i] && s[i] != 0)
    && a + |s| in m && m[a + |s|] == 0
  }

  lemma {:induction false} StringRead(m: Memory, a: nat, s: seq<byte>)
    requires StringAt(m, a, s)
    ensures CStr(m, a) == Got(s)
    decreases |s|
  {
    if s != [] {
      assert a + 0 in m && m[a + 0] == s[0];
      forall i | 0 <= i < |s[1..]|
        ensures a + 1 + i in m && m[a + 1 + i] == s[1..][i] && s[1..][i] != 0
      {
        assert s[1..][i] == s[i + 1] && m[a + (i + 1)] == s[i + 1];
      }
      StringRead(m, a + 1, s[1..]);
      assert [s[0]] + s[1..] == s;
    } else {
      assert m[a + |s|] == 0;
    }
  }

  /** Symbol k of the tables: undefined when its section index is zero. */
  ghost predicate SymbolIs(t: Memory, symtab: u64, strtab: u64, k: nat, s: Symbol) {
    var a: nat := Wrap(symtab + 24 * k);
    match s
    case Undefined => Load(t, a + 6, 2) == Got(0)
    case Defined(name, value) =>
      && Load(t, a + 6, 2).Got? && Load(t, a + 6, 2).value != 0
      && Load(t, a, 4).Got? && StringAt(t, Wrap(strtab + Load(t, a, 4).value), name)
      && Load(t, a + 8, 8) == Got(value)
  }

  /** Where the library says its tables are. */
  datatype Library = Library(phoff: u64, phnum: u64, vaddr: u64, dyn: nat, symtab: Option<u64>, strtab: Option<u64>,
                             hash: Option<u64>)

  ghost predicate LibraryHeaders(t: Memory, base: u64, l: Library) {
    && Load(t, base + 32, 8) == Got(l.phoff) && Load(t, base + 56, 2) == Got(l.phnum)
    && Segment(t, Wrap(base + l.phoff), l.phnum, l.vaddr)
    && (l.vaddr != 0 ==>
          var d: nat := Wrap(base + l.vaddr);
          && Table(t, d, l.dyn) && Gives(t, d, l.dyn, 6, l.symtab) && Gives(t, d, l.dyn, 5, l.strtab)
          && Gives(t, d, l.dyn, 4, l.hash))
  }

  ghost predicate Usable(base: u64, l: Library) {
    l.vaddr != 0 && Over(base, l.symtab) != 0 && Over(base, l.strtab) != 0 && Over(base, l.hash) != 0
  }

  /** The library's symbols, as many as its hash table counts; none when it has no usable dynamic section. */
  ghost predicate LibraryIs(t: Memory, base: u64, l: Library, lib: seq<Symbol>) {
    && LibraryHeaders(t, base, l)
    && if Usable(base, l) then
         && Load(t, Over(base, l.hash) as nat + 4, 4) == Got(|lib|)
         && forall k :: 0 <= k < |lib| ==> SymbolIs(t, Over(base, l.symtab), Over(base, l.strtab), k, lib[k])
       else lib == []
  }

  lemma TablesRead(t: Memory, base: u64, l: Library)
    requires LibraryHeaders(t, base, l)
    ensures LibTables(t, base) ==
            Got(if Usable(base, l) then Some(Tables(Over(base, l.symtab), Over(base, l.strtab), Over(base, l.hash)))
                else None)
  {
    hide Load, Segment, Table, Gives, LastOf, Pairs, FindDynamic, Over;
    SegmentFound(t, Wrap(base + l.phoff), l.phnum, l.vaddr);
    if l.vaddr != 0 {
      var d: nat := Wrap(base + l.vaddr);
      TableIsPairs(t, d, l.dyn);
      TagOver(t, d, l.dyn, 6, base, l.symtab);
      TagOver(t, d, l.dyn, 5, base, l.strtab);
      TagOver(t, d, l.dyn, 4, base, l.hash);
    }
  }

  lemma SymbolRead(t: Memory, tab: Tables, k: nat, s: Symbol)
    requires SymbolIs(t, tab.symtab, tab.strtab, k, s)
    ensures SymbolAt(t, tab, k) == Got(s)
  {
    hide Load, StringAt, CStr;
    assert tab.symtab + k * 24 == tab.symtab + 24 * k;
    if s.Defined? {
      StringRead(t, Wrap(tab.strtab + Load(t, Wrap(tab.symtab + 24 * k), 4).value), s.name);
    }
  }

  lemma {:induction false} SymbolsRead(t: Memory, tab: Tables, lib: seq<Symbol>, i: nat)
    requires i <= |lib| && forall k :: 0 <= k < |lib| ==> SymbolIs(t, tab.symtab, tab.strtab, k, lib[k])
    ensures Symbols(t, tab, i, |lib|) == Got(lib[i..])
    decreases |lib| - i
  {
    hide SymbolAt, SymbolIs;
    if i < |lib| {
      SymbolRead(t, tab, i, lib[i]);
      SymbolsRead(t, tab, lib, i + 1);
      assert [lib[i]] + lib[i + 1..] == lib[i..];
    }
  }

  lemma LibraryRead(t: Memory, base: u64, l: Library, lib: seq<Symbol>)
    requires LibraryIs(t, base, l, lib)
    ensures Exports(t, base) == Got(lib)
  {
    hide Load, LibraryHeaders, LibTables, Over, Symbols, SymbolIs;
    TablesRead(t, base, l);
    if Usable(base, l) {
      SymbolsRead(t, Tables(Over(base, l.symtab), Over(base, l.strtab), Over(base, l.hash)), lib, 0);
      assert lib[0..] == lib;
    }
  }

  /** v is where the first defined symbol of that name is loaded; 0 when there is none. */
  ghost predicate Address(lib: seq<Symbol>, libc: u64, name: seq<byte>, v: u64) {
    || (exists k :: && 0 <= k < |lib| && lib[k].Defined? && lib[k].name == name && v == Wrap(libc + lib[k].value)
                    && forall j :: 0 <= j < k ==> lib[j].Undefined? || lib[j].name != name)
    || (v == 0 && forall j :: 0 <= j < |lib| ==> lib[j].Undefined? || lib[j].name != name)
  }

  lemma {:induction false} ResolveIsAddress(lib: seq<Symbol>, libc: u64, name: seq<byte>)
    ensures Address(lib, libc, name, Resolve(lib, libc, name))
  {
    if lib != [] && !Names(lib[0], name) {
      ResolveIsAddress(lib[1..], libc, name);
      var v := Resolve(lib[1..], libc, name);
      if k :| && 0 <= k < |lib[1..]| && lib[1..][k].Defined? && lib[1..][k].name == name
              && v == Wrap(libc + lib[1..][k].value)
              && forall j :: 0 <= j < k ==> lib[1..][j].Undefined? || lib[1..][j].name != name {
        assert lib[k + 1] == lib[1..][k];
        forall j | 0 <= j < k + 1
          ensures lib[j].Undefined? || lib[j].name != name
        {
          assert j > 0 ==> lib[j] == lib[1..][j - 1];
        }
      } else {
        forall j | 0 <= j < |lib|
          ensures lib[j].Undefined? || lib[j].name != name
        {
          assert j > 0 ==> lib[j] == lib[1..][j - 1];
        }
      }
    }
  }

  // ---------- the entries ----------

  /** RELATIVE, or one of the three kinds that name a symbol: 64, GLOB_DAT and JUMP_SLOT. */
  predicate Stores(kind: nat) {
    kind == 8 || HasName(kind)
  }

  predicate HasName(kind: nat) {
    kind == 1 || kind == 6 || kind == 7
  }

  /** The entry's three words. */
  ghost predicate EntryIs(t: Memory, r: nat, offset: u64, info: u64, addend: u64) {
    Load(t, r, 8) == Got(offset) && Load(t, r + 8, 8) == Got(info) && Load(t, r + 16, 8) == Got(addend)
  }

  /** The program's symbol has this name. */
  ghost predicate NameIs(t: Memory, p: Program, sym: nat, name: seq<byte>) {
    var a: nat := Wrap(Over(p.exe, p.symtab) + 24 * sym);
    Load(t, a, 4).Got? && StringAt(t, Wrap(Over(p.exe, p.strtab) + Load(t, a, 4).value), name)
  }

  /** The word an entry asks for. */
  ghost predicate WordIs(t: Memory, p: Program, lib: seq<Symbol>, info: u64, addend: u64, w: u64) {
    && (info % 0x1_0000_0000 == 8 ==> w == Wrap(p.exe + addend))
    && (HasName(info % 0x1_0000_0000) ==>
          exists name, v: u64 :: && NameIs(t, p, info / 0x1_0000_0000, name) && Address(lib, p.libc, name, v)
                                 && w == if info % 0x1_0000_0000 == 7 then v else Wrap(v + addend))
  }

  /** The entry can be read, its symbol has a name, and its slot is mapped and no part of the tables. */
  ghost predicate EntryOk(m: Memory, t: Memory, p: Program, r: nat) {
    exists offset: u64, info: u64, addend: u64 ::
      && EntryIs(t, r, offset, info, addend)
      && (HasName(info % 0x1_0000_0000) ==> exists name :: NameIs(t, p, info / 0x1_0000_0000, name))
      && (Stores(info % 0x1_0000_0000) ==>
            Mapped(m, Wrap(p.exe + offset), 8)
            && forall x :: Wrap(p.exe + offset) <= x < Wrap(p.exe + offset) + 8 ==> x !in t)
  }

  lemma IntendedIs(t: Memory, p: Program, lib: seq<Symbol>, r: nat, offset: u64, info: u64, addend: u64)
    requires EntryIs(t, r, offset, info, addend)
    requires HasName(info % 0x1_0000_0000) ==> exists name :: NameIs(t, p, info / 0x1_0000_0000, name)
    ensures Intended(t, ContextOf(p), lib, r).Got?
    ensures var e := Intended(t, ContextOf(p), lib, r).value;
            && (e.Put? <==> Stores(info % 0x1_0000_0000))
            && (e.Put? ==> e.slot == Wrap(p.exe + offset) && WordIs(t, p, lib, info, addend, e.value))
  {
    hide Load, Wrap, Over, CStr, StringAt, Address, Resolve;
    var c, kind, sym := ContextOf(p), info % 0x1_0000_0000, info / 0x1_0000_0000;
    if HasName(kind) {
      var name :| NameIs(t, p, sym, name);
      assert c.symtab + sym * 24 == Over(p.exe, p.symtab) + 24 * sym;
      var a: nat := Wrap(c.symtab + sym * 24);
      StringRead(t, Wrap(c.strtab + Load(t, a, 4).value), name);
      ResolveIsAddress(lib, p.libc, name);
    }
  }

  /** Two entries that store do so 8 bytes apart, or are the same entry twice. */
  ghost predicate EntriesApart(t: Memory, p: Program, r: nat, q: nat) {
    forall o: u64, i: u64, a: u64, o': u64, i': u64, a': u64 ::
      EntryIs(t, r, o, i, a) && EntryIs(t, q, o', i', a') && Stores(i % 0x1_0000_0000) && Stores(i' % 0x1_0000_0000) ==>
        || (o == o' && i == i' && a == a')
        || Wrap(p.exe + o) + 8 <= Wrap(p.exe + o') || Wrap(p.exe + o') + 8 <= Wrap(p.exe + o)
  }

  ghost predicate ImageOk(m: Memory, t: Memory, p: Program) {
    && (forall r: nat :: IsEntry(p, r) ==> EntryOk(m, t, p, r))
    && (forall r: nat, q: nat :: IsEntry(p, r) && IsEntry(p, q) ==> EntriesApart(t, p, r, q))
  }

  /** What entry r is to do, from its words. */
  lemma EntryChange(m: Memory, t: Memory, p: Program, lib: seq<Symbol>, r: nat)
      returns (offset: u64, info: u64, addend: u64)
    requires EntryOk(m, t, p, r)
    ensures EntryIs(t, r, offset, info, addend) && Intended(t, ContextOf(p), lib, r).Got?
    ensures var e := Intended(t, ContextOf(p), lib, r).value;
            && SlotOk(m, t, e) && (e.Put? <==> Stores(info % 0x1_0000_0000))
            && (e.Put? ==> e.slot == Wrap(p.exe + offset) && WordIs(t, p, lib, info, addend, e.value))
  {
    hide EntryIs, NameIs, WordIs, Intended, Mapped, Wrap;
    offset, info, addend :|
      && EntryIs(t, r, offset, info, addend)
      && (HasName(info % 0x1_0000_0000) ==> exists name :: NameIs(t, p, info / 0x1_0000_0000, name))
      && (Stores(info % 0x1_0000_0000) ==>
            Mapped(m, Wrap(p.exe + offset), 8)
            && forall x :: Wrap(p.exe + offset) <= x < Wrap(p.exe + offset) + 8 ==> x !in t);
    IntendedIs(t, p, lib, r, offset, info, addend);
  }

  lemma ChangesApart(m: Memory, t: Memory, p: Program, lib: seq<Symbol>, r: nat, q: nat)
    requires EntryOk(m, t, p, r) && EntryOk(m, t, p, q) && EntriesApart(t, p, r, q)
    ensures Intended(t, ContextOf(p), lib, r).Got? && Intended(t, ContextOf(p), lib, q).Got?
    ensures Apart(Intended(t, ContextOf(p), lib, r).value, Intended(t, ContextOf(p), lib, q).value)
  {
    hide EntryOk, SlotOk, WordIs, Wrap;
    var o, i, a := EntryChange(m, t, p, lib, r);
    var o', i', a' := EntryChange(m, t, p, lib, q);
    if o == o' && i == i' && a == a' {
      SameWordsSameChange(t, ContextOf(p), lib, r, q);
    }
  }

  lemma SameWordsSameChange(t: Memory, c: Context, lib: seq<Symbol>, r: nat, q: nat)
    requires Load(t, r, 8) == Load(t, q, 8) && Load(t, r + 8, 8) == Load(t, q + 8, 8)
    requires Load(t, r + 16, 8) == Load(t, q + 16, 8)
    ensures Intended(t, c, lib, r) == Intended(t, c, lib, q)
  {
    hide Load;
  }

  lemma ImageIsWellFormed(m: Memory, t: Memory, p: Program, lib: seq<Symbol>, rs: seq<nat>)
    requires Within(t, m) && Exports(t, p.libc) == Got(lib) && ImageOk(m, t, p)
    requires forall r: nat :: r in rs <==> IsEntry(p, r)
    ensures WellFormed(m, t, ContextOf(p), lib, rs)
  {
    hide Within, Exports, EntryOk, EntriesApart, IsEntry, Intended, SlotOk, Apart, EntryIs, WordIs, Wrap;
    var c := ContextOf(p);
    forall r: nat | r in rs
      ensures Intended(t, c, lib, r).Got? && SlotOk(m, t, Intended(t, c, lib, r).value)
    {
      var _, _, _ := EntryChange(m, t, p, lib, r);
    }
    var es := Changes(t, c, lib, rs);
    forall e, f | e in es && f in es
      ensures Apart(e, f)
    {
      var i :| 0 <= i < |es| && es[i] == e;
      var j :| 0 <= j < |es| && es[j] == f;
      assert rs[i] in rs && rs[j] in rs;
      ChangesApart(m, t, p, lib, rs[i], rs[j]);
    }
    forall e | e in es
      ensures SlotOk(m, t, e)
    {
      var i :| 0 <= i < |es| && es[i] == e;
      assert rs[i] in rs;
    }
  }

  /** An entry that stores has its word in its slot. */
  ghost predicate EntryDone(linked: Memory, t: Memory, p: Program, lib: seq<Symbol>, r: nat) {
    exists offset: u64, info: u64, addend: u64 ::
      && EntryIs(t, r, offset, info, addend)
      && (Stores(info % 0x1_0000_0000) ==>
            && Load(linked, Wrap(p.exe + offset), 8).Got?
            && WordIs(t, p, lib, info, addend, Load(linked, Wrap(p.exe + offset), 8).value))
  }

  /** x is a byte of the entry's slot. */
  ghost predicate Fills(t: Memory, p: Program, r: nat, x: nat) {
    exists offset: u64, info: u64, addend: u64 ::
      && EntryIs(t, r, offset, info, addend) && Stores(info % 0x1_0000_0000)
      && Wrap(p.exe + offset) <= x < Wrap(p.exe + offset) + 8
  }

  lemma EntryIsDone(m: Memory, linked: Memory, t: Memory, p: Program, lib: seq<Symbol>, r: nat)
    requires EntryOk(m, t, p, r) && Intended(t, ContextOf(p), lib, r).Got?
    requires var e := Intended(t, ContextOf(p), lib, r).value; e.Put? ==> Load(linked, e.slot, 8) == Got(e.value)
    ensures EntryDone(linked, t, p, lib, r)
  {
    hide EntryOk, EntryIs, WordIs, Load, Intended, Wrap, SlotOk;
    var offset, info, addend := EntryChange(m, t, p, lib, r);
  }

  lemma NotCovered(m: Memory, t: Memory, p: Program, lib: seq<Symbol>, r: nat, x: nat)
    requires EntryOk(m, t, p, r) && !Fills(t, p, r, x)
    ensures Intended(t, ContextOf(p), lib, r).Got? && !Covers(Intended(t, ContextOf(p), lib, r).value, x)
  {
    hide EntryOk, EntryIs, WordIs, Intended, Wrap, SlotOk;
    var offset, info, addend := EntryChange(m, t, p, lib, r);
  }

  lemma ImageLinked(m: Memory, sp: u64, p: Program, t: Memory, lib: seq<Symbol>, s: Start)
    requires ReadStart(m, sp) == Got(s) && s.c == ContextOf(p) && s.entry == p.entry
    requires Within(t, m) && Exports(t, p.libc) == Got(lib) && ImageOk(m, t, p)
    requires forall r: nat :: r in s.plt + s.rela <==> IsEntry(p, r)
    ensures LdMain(m, sp).Got? && LdMain(m, sp).value.1 == p.entry
    ensures var linked := LdMain(m, sp).value.0;
            && linked.Keys == m.Keys
            && (forall r: nat :: IsEntry(p, r) ==> EntryDone(linked, t, p, lib, r))
            && (forall x :: x in m && (forall r: nat :: IsEntry(p, r) ==> !Fills(t, p, r, x)) ==> linked[x] == m[x])
  {
    hide ReadStart, Exports, IsEntry, EntryOk, EntriesApart, Load, LdMain, EntryDone, Fills, Covers;
    hide Intended, Changes, AllApart, SlotsOk, Within;
    var rs := s.plt + s.rela;
    ImageIsWellFormed(m, t, p, lib, rs);
    LinksExactly(m, sp, t, s, lib);
    var linked := LdMain(m, sp).value.0;
    forall r: nat | IsEntry(p, r)
      ensures EntryDone(linked, t, p, lib, r)
    {
      assert r in rs;
      EntryIsDone(m, linked, t, p, lib, r);
    }
    forall x | x in m && (forall r: nat :: IsEntry(p, r) ==> !Fills(t, p, r, x))
      ensures linked[x] == m[x]
    {
      forall r | r in rs
        ensures !Covers(Intended(t, s.c, lib, r).value, x)
      {
        NotCovered(m, t, p, lib, r, x);
      }
    }
  }

  /** From the words of stack, program and library alone: after linking, every whole entry of DT_JMPREL and of
      DT_RELA has its word in its slot, no other byte has changed, and the address to jump to is AT_ENTRY's. */
  lemma LinksTheImage(m: Memory, sp: u64, p: Program, t: Memory, l: Library, lib: seq<Symbol>)
    requires Stack(m, sp, p) && Dynamic(m, p)
    requires Within(t, m) && LibraryIs(t, p.libc, l, lib) && ImageOk(m, t, p)
    ensures LdMain(m, sp).Got? && LdMain(m, sp).value.1 == p.entry
    ensures var linked := LdMain(m, sp).value.0;
            && linked.Keys == m.Keys
            && (forall r: nat :: IsEntry(p, r) ==> EntryDone(linked, t, p, lib, r))
            && (forall x :: x in m && (forall r: nat :: IsEntry(p, r) ==> !Fills(t, p, r, x)) ==> linked[x] == m[x])
  {
    hide Stack, Dynamic, LibraryIs, Exports, ReadStart, LdMain, IsEntry, EntryDone, Fills, ImageOk, Within, ContextOf;
    StartIs(m, sp, p);
    LibraryRead(t, p.libc, l, lib);
    ImageLinked(m, sp, p, t, lib, ReadStart(m, sp).value);
  }

  // ---------- an image ----------

  /** 7 arguments, no environment, no auxiliary values, so everything is based at 0 and the dynamic section is the
      stack: DT_RELA 96, DT_RELASZ 24. Entry 96 is RELATIVE, with the slot at 120 and addend 5. */
  function TinyByte(x: nat): byte {
    if x == 0 then 7 else if x == 8 then 96 else if x == 16 then 8 else if x == 24 then 24
    else if x == 96 then 120 else if x == 104 then 8 else if x == 112 then 5 else 0
  }

  function Tiny(size: nat): Memory {
    map x: nat | x < size :: TinyByte(x)
  }

  const TINY := Program(7, 0, 0, 0, 0, 0, 0, 0, 0, 2, None, None, None, 0, Some(96), 24)

  lemma TinyWord(size: nat, a: nat, k: nat)
    requires a + k <= size <= 128 && a % 8 == 0 && 1 <= k <= 8
    ensures Load(Tiny(size), a, k) == Got(TinyByte(a))
  {
    hide FromLE;
    var s := BytesAt(Tiny(size), a, k);
    assert forall i :: 1 <= i < k ==> s[i] == 0;
    OneByte(s);
  }

  lemma TinyStack()
    ensures Stack(Tiny(128), 0, TINY)
  {
    hide Load, Tiny;
    var m := Tiny(128);
    TinyWord(128, 0, 8);
    TinyWord(128, 72, 8);
    TinyWord(128, 80, 8);
    assert WordAt(m, 72, 0) == Got(0) && TagAt(m, 80, 0) == Got(0);
  }

  lemma TinyDynamic()
    ensures Dynamic(Tiny(128), TINY)
  {
    hide Load, Tiny;
    var m := Tiny(128);
    TinyWord(128, 0, 8);
    TinyWord(128, 8, 8);
    TinyWord(128, 16, 8);
    TinyWord(128, 24, 8);
    TinyWord(128, 32, 8);
    assert TagAt(m, 0, 0) == Got(7) && ValueAt(m, 0, 0) == Got(96);
    assert TagAt(m, 0, 1) == Got(8) && ValueAt(m, 0, 1) == Got(24) && TagAt(m, 0, 2) == Got(0);
    hide TagAt, ValueAt;
    assert LastIs(m, 0, 2, 7, 96) && LastIs(m, 0, 2, 8, 24);
  }

  lemma TinyLibrary()
    ensures LibraryIs(Tiny(120), 0, Library(0, 0, 0, 0, None, None, None), [])
  {
    hide Load, Tiny;
    TinyWord(120, 32, 8);
    TinyWord(120, 56, 2);
  }

  lemma TinyEntries(r: nat)
    ensures IsEntry(TINY, r) <==> r == 96
  {
    assert Entry(Over(0, Some(96)), 24, 0, 96);
    assert forall k: nat :: Entry(Over(0, Some(96)), 24, k, r) ==> k == 0;
  }

  lemma TinySlot()
    ensures Mapped(Tiny(128), 120, 8) && forall x :: 120 <= x < 128 ==> x !in Tiny(120)
  {
  }

  lemma TinyEntry()
    ensures EntryIs(Tiny(120), 96, 120, 8, 5) && EntryOk(Tiny(128), Tiny(120), TINY, 96)
  {
    hide Load, Tiny, Mapped;
    TinyWord(120, 96, 8);
    TinyWord(120, 104, 8);
    TinyWord(120, 112, 8);
    TinySlot();
    assert EntryIs(Tiny(120), 96, 120, 8, 5);
    assert Wrap(TINY.exe + 120) == 120 && !HasName(8 % 0x1_0000_0000);
    hide EntryIs, Wrap;
  }

  lemma TinyOk()
    ensures Within(Tiny(120), Tiny(128)) && ImageOk(Tiny(128), Tiny(120), TINY)
  {
    TinyEntry();
    hide EntryOk, IsEntry, Load;
    forall r: nat
      ensures IsEntry(TINY, r) <==> r == 96
    {
      TinyEntries(r);
    }
  }

  /** The image is as the theorem asks for, and its slot ends at 5. */
  lemma TinyLinks()
    ensures Stack(Tiny(128), 0, TINY) && Dynamic(Tiny(128), TINY)
    ensures LibraryIs(Tiny(120), 0, Library(0, 0, 0, 0, None, None, None), [])
    ensures Within(Tiny(120), Tiny(128)) && ImageOk(Tiny(128), Tiny(120), TINY)
    ensures LdMain(Tiny(128), 0).Got? && Load(LdMain(Tiny(128), 0).value.0, 120, 8) == Got(5)
  {
    hide Load, Tiny, Stack, Dynamic, LibraryIs, IsEntry, ImageOk, LdMain, Within, Fills, EntryDone, EntryIs, EntryOk;
    var m, t := Tiny(128), Tiny(120);
    TinyStack();
    TinyDynamic();
    TinyLibrary();
    TinyOk();
    TinyEntries(96);
    TinyEntry();
    LinksTheImage(m, 0, TINY, t, Library(0, 0, 0, 0, None, None, None), []);
    TinyDone(LdMain(m, 0).value.0);
  }

  lemma TinyDone(linked: Memory)
    requires EntryDone(linked, Tiny(120), TINY, [], 96) && EntryIs(Tiny(120), 96, 120, 8, 5)
    ensures Load(linked, 120, 8) == Got(5)
  {
    hide Load, Tiny;
  }
}
