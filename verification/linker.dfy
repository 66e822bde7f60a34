/** Raw process memory as the dynamic linker sees it: reads fault on unmapped bytes. */
module LinkMemory {
  import opened Common
  import opened Bytes

  type Memory = map<nat, byte>

  datatype Read<+T> = Fault | Got(value: T) {
    predicate IsFailure() {
      Fault?
    }

    function PropagateFailure<U>(): Read<U>
      requires Fault?
    {
      Fault
    }

    function Extract(): T
      requires Got?
    {
      value
    }
  }

  function Wrap(n: nat): u64 {
    n % U64
  }

  predicate Mapped(m: Memory, a: nat, k: nat) {
    a + k <= U64 && forall x :: a <= x < a + k ==> x in m
  }

  function BytesAt(m: Memory, a: nat, k: nat): (s: seq<byte>)
    requires Mapped(m, a, k)
    ensures |s| == k && forall i :: 0 <= i < k ==> s[i] == m[a + i]
  {
    seq(k, i requires 0 <= i < k => m[a + i])
  }

  function Peek(m: Memory, a: nat): Read<byte> {
    if a < U64 && a in m then Got(m[a]) else Fault
  }

  lemma {:induction false} Pow256Grows(k: nat, n: nat)
    requires k <= n
    ensures Pow256(k) <= Pow256(n)
    decreases n - k
  {
    if k < n {
      Pow256Grows(k + 1, n);
    }
  }

  lemma WordFits(s: seq<byte>)
    requires |s| <= 8
    ensures FromLE(s) < U64
  {
    hide FromLE, Pow256;
    FromLEBound(s);
    Pow256Grows(|s|, 8);
    PowU64();
  }

  /** A k-byte little-endian load. */
  function Load(m: Memory, a: nat, k: nat): (r: Read<u64>)
    requires k <= 8
    ensures r.Got? <==> Mapped(m, a, k)
  {
    if Mapped(m, a, k) then
      WordFits(BytesAt(m, a, k));
      Got(FromLE(BytesAt(m, a, k)))
    else Fault
  }

  /** An 8-byte store into mapped memory. */
  function Write(m: Memory, a: nat, v: u64): (r: Memory)
    requires Mapped(m, a, 8)
    ensures r.Keys == m.Keys
  {
    map x | x in m :: if a <= x < a + 8 then ToLE(v, 8)[x - a] else m[x]
  }

  /** Everything `part` maps, `m` maps to the same byte. */
  ghost predicate Within(part: Memory, m: Memory) {
    forall x :: x in part ==> x in m && m[x] == part[x]
  }

  lemma LoadWithin(part: Memory, m: Memory, a: nat, k: nat)
    requires k <= 8 && Within(part, m) && Mapped(part, a, k)
    ensures Load(m, a, k) == Load(part, a, k)
  {
    hide FromLE;
    assert BytesAt(part, a, k) == BytesAt(m, a, k);
  }

  lemma LoadWritten(m: Memory, a: nat, v: u64)
    requires Mapped(m, a, 8)
    ensures Load(Write(m, a, v), a, 8) == Got(v)
  {
    hide FromLE, ToLE, Pow256;
    PowU64();
    LERoundTrip(v, 8);
    assert BytesAt(Write(m, a, v), a, 8) == ToLE(v, 8);
  }
}

/** What `ld-euro.so` reads and computes (userland/ldeuro.c). */
module LinkTables {
  import opened Common
  import opened LinkMemory

  const PT_DYNAMIC: u64 := 2
  const DT_PLTRELSZ: u64 := 2
  const DT_HASH: u64 := 4
  const DT_STRTAB: u64 := 5
  const DT_SYMTAB: u64 := 6
  const DT_RELA: u64 := 7
  const DT_RELASZ: u64 := 8
  const DT_JMPREL: u64 := 23
  const AT_PHDR: u64 := 3
  const AT_PHNUM: u64 := 5
  const AT_ENTRY: u64 := 9
  const AT_EURO_EXE_BASE: u64 := 0x6E01
  const AT_EURO_LIBC_BASE: u64 := 0x6E02
  const R_64: u64 := 1
  const R_GLOB_DAT: u64 := 6
  const R_JUMP_SLOT: u64 := 7
  const R_RELATIVE: u64 := 8

  // ---------- strings ----------

  function StrEq(m: Memory, a: nat, b: nat): Read<bool>
    decreases U64 - a
  {
    var x :- Peek(m, a);
    var y :- Peek(m, b);
    if x != 0 && x == y then StrEq(m, a + 1, b + 1) else Got(x == y)
  }

  /** The bytes up to the terminating zero. */
  function CStr(m: Memory, a: nat): Read<seq<byte>>
    decreases U64 - a
  {
    var x :- Peek(m, a);
    if x == 0 then Got([]) else
    var rest :- CStr(m, a + 1);
    Got([x] + rest)
  }

  lemma {:induction false} StrEqIsEquality(m: Memory, a: nat, b: nat)
    requires CStr(m, a).Got? && CStr(m, b).Got?
    ensures StrEq(m, a, b) == Got(CStr(m, a).value == CStr(m, b).value)
    decreases U64 - a
  {
    var s, t := CStr(m, a).value, CStr(m, b).value;
    if m[a] != 0 && m[b] != 0 {
      assert s[1..] == CStr(m, a + 1).value && t[1..] == CStr(m, b + 1).value;
      if m[a] == m[b] {
        StrEqIsEquality(m, a + 1, b + 1);
        assert s == t <==> s[1..] == t[1..] by {
          assert s == [s[0]] + s[1..] && t == [t[0]] + t[1..];
        }
      } else {
        assert s[0] != t[0];
      }
    }
  }

  // ---------- program headers, dynamic section, auxiliary vector ----------

  /** The address of the first PT_DYNAMIC segment, 0 if there is none. */
  function FindDynamic(m: Memory, headers: u64, i: nat, n: nat): Read<u64>
    decreases n - i
  {
    if i >= n then Got(0) else
    var e := Wrap(headers + i * 56);
    var kind :- Load(m, e, 4);
    if kind == PT_DYNAMIC then Load(m, e + 16, 8) else FindDynamic(m, headers, i + 1, n)
  }

  /** The (tag, value) pairs from d up to the zero tag, after those already seen. */
  function Pairs(m: Memory, d: nat, seen: seq<(u64, u64)>): Read<seq<(u64, u64)>>
    decreases U64 - d
  {
    var tag :- Load(m, d, 8);
    if tag == 0 then Got(seen) else
    var val :- Load(m, d + 8, 8);
    Pairs(m, d + 16, seen + [(tag, val)])
  }

  /** base + the value of the last pair with this tag, 0 if there is none. */
  function LastOf(ps: seq<(u64, u64)>, tag: u64, base: u64): u64 {
    if ps == [] then 0
    else if ps[|ps| - 1].0 == tag then Wrap(base + ps[|ps| - 1].1)
    else LastOf(ps[..|ps| - 1], tag, base)
  }

  lemma LastOfNext(ps: seq<(u64, u64)>, p: (u64, u64), tag: u64, base: u64)
    ensures LastOf(ps + [p], tag, base) == if p.0 == tag then Wrap(base + p.1) else LastOf(ps, tag, base)
  {
  }

  // ---------- symbol lookup in the library ----------

  datatype Tables = Tables(symtab: u64, strtab: u64, hash: u64)

  /** Where the library keeps its symbols; None when it has no usable dynamic section. */
  function LibTables(m: Memory, base: u64): Read<Option<Tables>> {
    var phoff :- Load(m, base + 32, 8);
    var phnum :- Load(m, base + 56, 2);
    var dynamic :- FindDynamic(m, Wrap(base + phoff), 0, phnum);
    if dynamic == 0 then Got(None) else
    var ps :- Pairs(m, Wrap(base + dynamic), []);
    var t := Tables(LastOf(ps, DT_SYMTAB, base), LastOf(ps, DT_STRTAB, base), LastOf(ps, DT_HASH, base));
    Got(if t.symtab == 0 || t.strtab == 0 || t.hash == 0 then None else Some(t))
  }

  function Scan(m: Memory, base: u64, t: Tables, i: nat, n: nat, name: nat): Read<u64>
    decreases n - i
  {
    if i >= n then Got(0) else
    var s := Wrap(t.symtab + i * 24);
    var shndx :- Load(m, s + 6, 2);
    if shndx == 0 then Scan(m, base, t, i + 1, n, name) else
    var off :- Load(m, s, 4);
    var same :- StrEq(m, Wrap(t.strtab + off), name);
    if !same then Scan(m, base, t, i + 1, n, name) else
    var value :- Load(m, s + 8, 8);
    Got(Wrap(base + value))
  }

  function Lookup(m: Memory, base: u64, name: nat): Read<u64> {
    var t :- LibTables(m, base);
    if t.None? then Got(0) else
    var n :- Load(m, t.value.hash + 4, 4);
    Scan(m, base, t.value, 0, n, name)
  }

  /** A symbol of the library, read out of its tables. */
  datatype Symbol = Undefined | Defined(name: seq<byte>, value: u64)

  function SymbolAt(m: Memory, t: Tables, i: nat): Read<Symbol> {
    var s := Wrap(t.symtab + i * 24);
    var shndx :- Load(m, s + 6, 2);
    if shndx == 0 then Got(Undefined) else
    var off :- Load(m, s, 4);
    var name :- CStr(m, Wrap(t.strtab + off));
    var value :- Load(m, s + 8, 8);
    Got(Defined(name, value))
  }

  function Symbols(m: Memory, t: Tables, i: nat, n: nat): Read<seq<Symbol>>
    decreases n - i
  {
    if i >= n then Got([]) else
    var s :- SymbolAt(m, t, i);
    var rest :- Symbols(m, t, i + 1, n);
    Got([s] + rest)
  }

  /** The library's whole symbol table; Fault when part of it is not readable. */
  function Exports(m: Memory, base: u64): Read<seq<Symbol>> {
    var t :- LibTables(m, base);
    if t.None? then Got([]) else
    var n :- Load(m, t.value.hash + 4, 4);
    Symbols(m, t.value, 0, n)
  }

  predicate Names(s: Symbol, name: seq<byte>) {
    s.Defined? && s.name == name
  }

  function Resolve(lib: seq<Symbol>, base: u64, name: seq<byte>): u64 {
    if lib == [] then 0
    else if Names(lib[0], name) then Wrap(base + lib[0].value)
    else Resolve(lib[1..], base, name)
  }

  /** The first defined symbol of that name decides; without one the result is 0. */
  lemma {:induction false} ResolveIsFirst(lib: seq<Symbol>, base: u64, name: seq<byte>, k: nat)
    requires k <= |lib| && forall j :: 0 <= j < k ==> !Names(lib[j], name)
    requires k < |lib| ==> Names(lib[k], name)
    ensures Resolve(lib, base, name) == if k < |lib| then Wrap(base + lib[k].value) else 0
  {
    if k > 0 {
      assert !Names(lib[0], name);
      ResolveIsFirst(lib[1..], base, name, k - 1);
    }
  }

  lemma {:induction false} ScanFindsFirst(m: Memory, base: u64, t: Tables, i: nat, n: nat, name: nat)
    requires Symbols(m, t, i, n).Got? && CStr(m, name).Got?
    ensures Scan(m, base, t, i, n, name) == Got(Resolve(Symbols(m, t, i, n).value, base, CStr(m, name).value))
    decreases n - i
  {
    if i < n {
      ScanFindsFirst(m, base, t, i + 1, n, name);
      var syms, rest := Symbols(m, t, i, n).value, Symbols(m, t, i + 1, n).value;
      assert syms[0] == SymbolAt(m, t, i).value && syms[1..] == rest;
      if syms[0].Defined? {
        var off := Load(m, Wrap(t.symtab + i * 24), 4).value;
        StrEqIsEquality(m, Wrap(t.strtab + off), name);
      }
    }
  }

  /** Walking the tables finds the first defined symbol of the name. */
  lemma LookupFindsFirst(m: Memory, base: u64, name: nat)
    requires Exports(m, base).Got? && CStr(m, name).Got?
    ensures Lookup(m, base, name) == Got(Resolve(Exports(m, base).value, base, CStr(m, name).value))
  {
    hide LibTables, Scan, Symbols, CStr;
    var t := LibTables(m, base).value;
    if t.Some? {
      var n := Load(m, t.value.hash + 4, 4).value;
      ScanFindsFirst(m, base, t.value, 0, n, name);
    }
  }
}

/** Reading the tables out of a part of memory or out of all of it gives the same. */
module LinkFrames {
  import opened Common
  import opened LinkMemory
  import opened LinkTables

  lemma {:induction false} CStrWithin(part: Memory, m: Memory, a: nat)
    requires Within(part, m) && CStr(part, a).Got?
    ensures CStr(m, a) == CStr(part, a)
    decreases U64 - a
  {
    if part[a] != 0 {
      CStrWithin(part, m, a + 1);
    }
  }

  lemma {:induction false} FindDynamicWithin(part: Memory, m: Memory, headers: u64, i: nat, n: nat)
    requires Within(part, m) && FindDynamic(part, headers, i, n).Got?
    ensures FindDynamic(m, headers, i, n) == FindDynamic(part, headers, i, n)
    decreases n - i
  {
    hide Load, Within, Mapped;
    if i < n {
      var e: nat := Wrap(headers + i * 56);
      LoadWithin(part, m, e, 4);
      if Load(part, e, 4).value == PT_DYNAMIC {
        LoadWithin(part, m, e + 16, 8);
      } else {
        FindDynamicWithin(part, m, headers, i + 1, n);
      }
    }
  }

  lemma {:induction false} PairsWithin(part: Memory, m: Memory, d: nat, seen: seq<(u64, u64)>)
    requires Within(part, m) && Pairs(part, d, seen).Got?
    ensures Pairs(m, d, seen) == Pairs(part, d, seen)
    decreases U64 - d
  {
    hide Load, Within;
    LoadWithin(part, m, d, 8);
    var tag := Load(part, d, 8).value;
    if tag != 0 {
      LoadWithin(part, m, d + 8, 8);
      PairsWithin(part, m, d + 16, seen + [(tag, Load(part, d + 8, 8).value)]);
    }
  }

  lemma LibTablesWithin(part: Memory, m: Memory, base: u64)
    requires Within(part, m) && LibTables(part, base).Got?
    ensures LibTables(m, base) == LibTables(part, base)
  {
    hide Load, Within, Mapped, FindDynamic, Pairs, LastOf;
    LoadWithin(part, m, base + 32, 8);
    LoadWithin(part, m, base + 56, 2);
    var headers, n := Wrap(base + Load(part, base + 32, 8).value), Load(part, base + 56, 2).value;
    FindDynamicWithin(part, m, headers, 0, n);
    var dynamic := FindDynamic(part, headers, 0, n).value;
    if dynamic != 0 {
      PairsWithin(part, m, Wrap(base + dynamic), []);
    }
  }

  lemma SymbolAtWithin(part: Memory, m: Memory, t: Tables, i: nat)
    requires Within(part, m) && SymbolAt(part, t, i).Got?
    ensures SymbolAt(m, t, i) == SymbolAt(part, t, i)
  {
    hide Load, Within, Mapped, CStr;
    var s: nat := Wrap(t.symtab + i * 24);
    LoadWithin(part, m, s + 6, 2);
    if Load(part, s + 6, 2).value != 0 {
      LoadWithin(part, m, s, 4);
      CStrWithin(part, m, Wrap(t.strtab + Load(part, s, 4).value));
      LoadWithin(part, m, s + 8, 8);
    }
  }

  lemma {:induction false} SymbolsWithin(part: Memory, m: Memory, t: Tables, i: nat, n: nat)
    requires Within(part, m) && Symbols(part, t, i, n).Got?
    ensures Symbols(m, t, i, n) == Symbols(part, t, i, n)
    decreases n - i
  {
    hide Within, SymbolAt;
    if i < n {
      SymbolAtWithin(part, m, t, i);
      SymbolsWithin(part, m, t, i + 1, n);
    }
  }

  lemma ExportsWithin(part: Memory, m: Memory, base: u64)
    requires Within(part, m) && Exports(part, base).Got?
    ensures Exports(m, base) == Exports(part, base)
  {
    hide Load, Within, Mapped, LibTables, Symbols;
    LibTablesWithin(part, m, base);
    var t := LibTables(part, base).value;
    if t.Some? {
      LoadWithin(part, m, t.value.hash + 4, 4);
      SymbolsWithin(part, m, t.value, 0, Load(part, t.value.hash + 4, 4).value);
    }
  }
}

/** Relocation of a program against the library (userland/ldeuro.c). */
module Linking {
  import opened Bytes
  import opened Common
  import opened LinkMemory
  import opened LinkTables
  import opened LinkFrames

  datatype Context = Context(exe: u64, libc: u64, symtab: u64, strtab: u64)

  /** What one relocation entry does to memory. */
  datatype Change = Keep | Put(slot: u64, value: u64)

  predicate Symbolic(kind: nat) {
    kind == R_JUMP_SLOT || kind == R_GLOB_DAT || kind == R_64
  }

  /** The entry at r, as the code works it out from the memory it finds. */
  function Effect(m: Memory, c: Context, r: nat): Read<Change> {
    var offset :- Load(m, r, 8);
    var info :- Load(m, r + 8, 8);
    var addend :- Load(m, r + 16, 8);
    var kind, sym := info % U32, info / U32;
    if kind == R_RELATIVE then Got(Put(Wrap(c.exe + offset), Wrap(c.exe + addend)))
    else if !Symbolic(kind) then Got(Keep)
    else
      var name :- Load(m, Wrap(c.symtab + sym * 24), 4);
      var v :- Lookup(m, c.libc, Wrap(c.strtab + name));
      Got(Put(Wrap(c.exe + offset), if kind == R_JUMP_SLOT then v else Wrap(v + addend)))
  }

  function Apply(m: Memory, e: Change): (r: Read<Memory>)
    ensures r.Got? ==> r.value.Keys == m.Keys
  {
    if e.Keep? then Got(m)
    else if Mapped(m, e.slot, 8) then Got(Write(m, e.slot, e.value))
    else Fault
  }

  /** The entries at these addresses, one after the other. */
  function RelocAll(m: Memory, c: Context, rs: seq<nat>): Read<Memory> {
    if rs == [] then Got(m) else
    var e :- Effect(m, c, rs[0]);
    var next :- Apply(m, e);
    RelocAll(next, c, rs[1..])
  }

  /** Memory when the entries are done, or when one of them faults. */
  function Reached(m: Memory, c: Context, rs: seq<nat>): Memory {
    if rs == [] || Effect(m, c, rs[0]).Fault? then m else
    var next := Apply(m, Effect(m, c, rs[0]).value);
    if next.Fault? then m else Reached(next.value, c, rs[1..])
  }

  /** A run that faults has applied the entries before the one that faults, and nothing of that one. */
  lemma {:induction false} ReachedIsPrefix(m: Memory, c: Context, rs: seq<nat>) returns (k: nat)
    ensures k <= |rs| && RelocAll(m, c, rs[..k]) == Got(Reached(m, c, rs))
    ensures k < |rs| ==> RelocAll(m, c, rs[..k + 1]).Fault? && RelocAll(m, c, rs).Fault?
    decreases |rs|
  {
    hide Effect, Apply;
    k := 0;
    if rs != [] && Effect(m, c, rs[0]).Got? && Apply(m, Effect(m, c, rs[0]).value).Got? {
      var next := Apply(m, Effect(m, c, rs[0]).value).value;
      var j := ReachedIsPrefix(next, c, rs[1..]);
      k := j + 1;
      assert rs[..k][0] == rs[0] && rs[..k][1..] == rs[1..][..j];
      if j < |rs[1..]| {
        assert rs[..k + 1][0] == rs[0] && rs[..k + 1][1..] == rs[1..][..j + 1];
      }
    }
  }

  /** The addresses of the whole 24-byte entries in a table. */
  function Rows(addr: u64, size: u64): (rs: seq<nat>)
    ensures |rs| == size / 24
  {
    seq(size / 24, i requires 0 <= i => Wrap(addr + i * 24))
  }

  datatype Start = Start(entry: u64, c: Context, plt: seq<nat>, rela: seq<nat>)

  /** Past the environment: the address after the first zero word. */
  function SkipEnvironment(m: Memory, p: nat): Read<nat>
    decreases U64 - p
  {
    var w :- Load(m, p, 8);
    if w == 0 then Got(p + 8) else SkipEnvironment(m, p + 8)
  }

  /** What the initial stack and the program's headers say. */
  function ReadStart(m: Memory, sp: u64): Read<Start> {
    var argc :- Load(m, sp, 8);
    var auxv :- SkipEnvironment(m, Wrap(sp + (argc + 2) * 8));
    var aux :- Pairs(m, auxv, []);
    var exe := LastOf(aux, AT_EURO_EXE_BASE, 0);
    var dynamic :- FindDynamic(m, LastOf(aux, AT_PHDR, 0), 0, LastOf(aux, AT_PHNUM, 0));
    var dyn :- Pairs(m, Wrap(exe + dynamic), []);
    var plt, rela := LastOf(dyn, DT_JMPREL, exe), LastOf(dyn, DT_RELA, exe);
    Got(Start(LastOf(aux, AT_ENTRY, 0),
              Context(exe, LastOf(aux, AT_EURO_LIBC_BASE, 0), LastOf(dyn, DT_SYMTAB, exe), LastOf(dyn, DT_STRTAB, exe)),
              if plt != 0 then Rows(plt, LastOf(dyn, DT_PLTRELSZ, 0)) else [],
              if rela != 0 then Rows(rela, LastOf(dyn, DT_RELASZ, 0)) else []))
  }

  /** The linked memory and the address to jump to. */
  function LdMain(m: Memory, sp: u64): Read<(Memory, u64)> {
    var s :- ReadStart(m, sp);
    var once :- RelocAll(m, s.c, s.plt);
    var linked :- RelocAll(once, s.c, s.rela);
    Got((linked, s.entry))
  }

  // ---------- what an entry is meant to do ----------

  /** The entry at r by name: base + addend for RELATIVE, the symbol for JUMP_SLOT, symbol + addend otherwise. */
  function Intended(m: Memory, c: Context, lib: seq<Symbol>, r: nat): Read<Change> {
    var offset :- Load(m, r, 8);
    var info :- Load(m, r + 8, 8);
    var addend :- Load(m, r + 16, 8);
    var slot := Wrap(c.exe + offset);
    if info % U32 == R_RELATIVE then Got(Put(slot, Wrap(c.exe + addend)))
    else if !Symbolic(info % U32) then Got(Keep)
    else
      var name :- NameOf(m, c, info / U32);
      var v := Resolve(lib, c.libc, name);
      Got(Put(slot, if info % U32 == R_JUMP_SLOT then v else Wrap(v + addend)))
  }

  function NameOf(m: Memory, c: Context, sym: nat): Read<seq<byte>> {
    var off :- Load(m, Wrap(c.symtab + sym * 24), 4);
    CStr(m, Wrap(c.strtab + off))
  }

  lemma EffectIsIntended(m: Memory, c: Context, lib: seq<Symbol>, r: nat)
    requires Exports(m, c.libc) == Got(lib) && Intended(m, c, lib, r).Got?
    ensures Effect(m, c, r) == Intended(m, c, lib, r)
  {
    hide Load, Mapped, Lookup, Exports, CStr, Resolve;
    var info := Load(m, r + 8, 8).value;
    if Symbolic(info % U32) && info % U32 != R_RELATIVE {
      var off := Load(m, Wrap(c.symtab + info / U32 * 24), 4).value;
      LookupFindsFirst(m, c.libc, Wrap(c.strtab + off));
    }
  }

  lemma IntendedWithin(part: Memory, m: Memory, c: Context, lib: seq<Symbol>, r: nat)
    requires Within(part, m) && Intended(part, c, lib, r).Got?
    ensures Intended(m, c, lib, r) == Intended(part, c, lib, r)
  {
    hide Load, Within, Mapped, CStr, Resolve;
    LoadWithin(part, m, r, 8);
    LoadWithin(part, m, r + 8, 8);
    LoadWithin(part, m, r + 16, 8);
    var info := Load(part, r + 8, 8).value;
    if Symbolic(info % U32) && info % U32 != R_RELATIVE {
      var s := Wrap(c.symtab + info / U32 * 24);
      LoadWithin(part, m, s, 4);
      CStrWithin(part, m, Wrap(c.strtab + Load(part, s, 4).value));
    }
  }

  // ---------- what the ABI asks of an entry ----------

  /** The entry at r by section 4.4.1 of the System V ABI AMD64 supplement: B + A for RELATIVE, S for
      JUMP_SLOT and GLOB_DAT, S + A for 64. */
  function ByTheAbi(m: Memory, c: Context, lib: seq<Symbol>, r: nat): Read<Change> {
    var offset :- Load(m, r, 8);
    var info :- Load(m, r + 8, 8);
    var addend :- Load(m, r + 16, 8);
    var slot, kind := Wrap(c.exe + offset), info % U32;
    if kind == R_RELATIVE then Got(Put(slot, Wrap(c.exe + addend)))
    else if !Symbolic(kind) then Got(Keep)
    else
      var name :- NameOf(m, c, info / U32);
      var v := Resolve(lib, c.libc, name);
      Got(Put(slot, if kind == R_64 then Wrap(v + addend) else v))
  }

  /** A GLOB_DAT entry whose addend word is not zero. */
  predicate GlobDatWithAddend(m: Memory, r: nat) {
    && Load(m, r + 8, 8).Got? && Load(m, r + 8, 8).value % U32 == R_GLOB_DAT
    && Load(m, r + 16, 8).Got? && Load(m, r + 16, 8).value != 0
  }

  lemma AddedNothing(v: u64, a: u64)
    ensures Wrap(v + a) == v <==> a == 0
  {
  }

  /** The linker does what the ABI asks of an entry if and only if it is not a GLOB_DAT with an addend;
      the slot is the right one in any case. */
  lemma MeetsTheAbi(m: Memory, c: Context, lib: seq<Symbol>, r: nat)
    requires Intended(m, c, lib, r).Got?
    ensures ByTheAbi(m, c, lib, r).Got?
    ensures Intended(m, c, lib, r) == ByTheAbi(m, c, lib, r) <==> !GlobDatWithAddend(m, r)
    ensures var e, f := Intended(m, c, lib, r).value, ByTheAbi(m, c, lib, r).value;
            && (e.Put? <==> f.Put?) && (e.Put? ==> e.slot == f.slot)
            && (e.Put? ==> (e.value == f.value <==> !GlobDatWithAddend(m, r)))
  {
    hide Load, Mapped, Resolve, NameOf, Wrap;
    var info, addend := Load(m, r + 8, 8).value, Load(m, r + 16, 8).value;
    if info % U32 == R_GLOB_DAT {
      var v := Resolve(lib, c.libc, NameOf(m, c, info / U32).value);
      AddedNothing(v, addend);
    }
  }

  // ---------- storing a list of words ----------

  /** The bytes of e's slot are mapped in m and hold no part of the tables. */
  ghost predicate SlotOk(m: Memory, tables: Memory, e: Change) {
    e.Put? ==> Mapped(m, e.slot, 8) && forall x :: e.slot <= x < e.slot + 8 ==> x !in tables
  }

  predicate Covers(e: Change, x: nat) {
    e.Put? && e.slot <= x < e.slot + 8
  }

  /** Two changes are the same or touch different bytes. */
  predicate Apart(e: Change, f: Change) {
    e == f || e.Keep? || f.Keep? || e.slot + 8 <= f.slot || f.slot + 8 <= e.slot
  }

  ghost predicate AllApart(es: seq<Change>) {
    forall e, f :: e in es && f in es ==> Apart(e, f)
  }

  ghost predicate AllMapped(m: Memory, es: seq<Change>) {
    forall e :: e in es && e.Put? ==> Mapped(m, e.slot, 8)
  }

  lemma AllMappedAfter(m: Memory, es: seq<Change>)
    requires AllMapped(m, es) && es != []
    ensures Apply(m, es[0]).Got? && AllMapped(Apply(m, es[0]).value, es[1..])
  {
  }

  /** Each change in turn, on memory where every slot is mapped. */
  ghost function StoreAll(m: Memory, es: seq<Change>): (r: Memory)
    requires AllMapped(m, es)
    ensures r.Keys == m.Keys
    decreases |es|
  {
    if es == [] then m else
    AllMappedAfter(m, es);
    StoreAll(Apply(m, es[0]).value, es[1..])
  }

  lemma {:induction false} StoredOutside(m: Memory, es: seq<Change>, x: nat)
    requires AllMapped(m, es)
    requires x in m && forall e :: e in es ==> !Covers(e, x)
    ensures StoreAll(m, es)[x] == m[x]
    decreases |es|
  {
    if es != [] {
      AllMappedAfter(m, es);
      assert es[0] in es && !Covers(es[0], x);
      StoredOutside(Apply(m, es[0]).value, es[1..], x);
    }
  }

  lemma {:induction false} StoredInside(m: Memory, es: seq<Change>, e: Change, x: nat)
    requires AllMapped(m, es)
    requires AllApart(es) && e in es && Covers(e, x) && x in m
    ensures StoreAll(m, es)[x] == Write(m, e.slot, e.value)[x]
    decreases |es|
  {
    AllMappedAfter(m, es);
    var next := Apply(m, es[0]).value;
    if e in es[1..] {
      StoredInside(next, es[1..], e, x);
    } else {
      forall f | f in es[1..]
        ensures !Covers(f, x)
      {
        assert Apart(e, f);
      }
      StoredOutside(next, es[1..], x);
    }
  }

  /** Every slot ends with its own word. */
  lemma StoredWord(m: Memory, es: seq<Change>, e: Change)
    requires AllMapped(m, es)
    requires AllApart(es) && e in es && e.Put?
    ensures Load(StoreAll(m, es), e.slot, 8) == Got(e.value)
  {
    var one, all := Write(m, e.slot, e.value), StoreAll(m, es);
    forall x | e.slot <= x < e.slot + 8
      ensures all[x] == one[x]
    {
      StoredInside(m, es, e, x);
    }
    hide StoreAll, Write;
    assert BytesAt(all, e.slot, 8) == BytesAt(one, e.slot, 8);
    LoadWritten(m, e.slot, e.value);
  }

  /** The same changes in any order, however often repeated, leave the same memory. */
  lemma StoredInAnyOrder(m: Memory, es: seq<Change>, fs: seq<Change>)
    requires AllMapped(m, es)
    requires AllApart(es) && forall e :: e in es <==> e in fs
    ensures StoreAll(m, es) == StoreAll(m, fs)
  {
    forall x | x in m
      ensures StoreAll(m, es)[x] == StoreAll(m, fs)[x]
    {
      if e :| e in es && Covers(e, x) {
        StoredInside(m, es, e, x);
        StoredInside(m, fs, e, x);
      } else {
        StoredOutside(m, es, x);
        StoredOutside(m, fs, x);
      }
    }
  }

  // ---------- linking a well-formed image ----------

  /** `tables` is a part of memory from which the library and the entries can be read. */
  ghost predicate Readable(m: Memory, tables: Memory, c: Context, lib: seq<Symbol>, rs: seq<nat>) {
    && Within(tables, m) && Exports(tables, c.libc) == Got(lib)
    && forall r :: r in rs ==> Intended(tables, c, lib, r).Got?
  }

  /** What the entries are meant to do, in their order. */
  ghost function Changes(tables: Memory, c: Context, lib: seq<Symbol>, rs: seq<nat>): (es: seq<Change>)
    requires forall r :: r in rs ==> Intended(tables, c, lib, r).Got?
    ensures |es| == |rs| && forall i :: 0 <= i < |rs| ==> es[i] == Intended(tables, c, lib, rs[i]).value
  {
    seq(|rs|, i requires 0 <= i < |rs| => assert rs[i] in rs; Intended(tables, c, lib, rs[i]).value)
  }

  ghost predicate SlotsOk(m: Memory, tables: Memory, es: seq<Change>)
    ensures SlotsOk(m, tables, es) ==> AllMapped(m, es)
  {
    forall e :: e in es ==> SlotOk(m, tables, e)
  }

  /** Slots are mapped, are not part of the tables, and coincide or are disjoint. */
  ghost predicate WellFormed(m: Memory, tables: Memory, c: Context, lib: seq<Symbol>, rs: seq<nat>) {
    && Readable(m, tables, c, lib, rs)
    && AllApart(Changes(tables, c, lib, rs))
    && SlotsOk(m, tables, Changes(tables, c, lib, rs))
  }

  lemma ApplyKeeps(m: Memory, tables: Memory, es: seq<Change>)
    requires Within(tables, m) && es != [] && SlotsOk(m, tables, es)
    ensures Apply(m, es[0]).Got? && Within(tables, Apply(m, es[0]).value)
    ensures SlotsOk(Apply(m, es[0]).value, tables, es[1..])
  {
    assert SlotOk(m, tables, es[0]);
    var next := Apply(m, es[0]).value;
    forall e | e in es[1..]
      ensures SlotOk(next, tables, e)
    {
      assert e in es && SlotOk(m, tables, e);
    }
  }

  /** Each entry sees the tables as they were before any entry was applied. */
  lemma {:induction false} RelocAllStores(m: Memory, tables: Memory, c: Context, lib: seq<Symbol>, rs: seq<nat>)
    requires Readable(m, tables, c, lib, rs) && SlotsOk(m, tables, Changes(tables, c, lib, rs))
    ensures RelocAll(m, c, rs) == Got(StoreAll(m, Changes(tables, c, lib, rs)))
    decreases |rs|
  {
    hide Effect, Intended, Exports, Within, Apply, SlotsOk, AllMapped;
    if rs != [] {
      var es := Changes(tables, c, lib, rs);
      assert rs[0] in rs;
      IntendedWithin(tables, m, c, lib, rs[0]);
      ExportsWithin(tables, m, c.libc);
      EffectIsIntended(m, c, lib, rs[0]);
      ApplyKeeps(m, tables, es);
      var next := Apply(m, es[0]).value;
      assert Changes(tables, c, lib, rs[1..]) == es[1..];
      RelocAllStores(next, tables, c, lib, rs[1..]);
    }
  }

  lemma {:induction false} RelocAllAppend(m: Memory, c: Context, a: seq<nat>, b: seq<nat>)
    requires RelocAll(m, c, a).Got?
    ensures RelocAll(m, c, a + b) == RelocAll(RelocAll(m, c, a).value, c, b)
    decreases |a|
  {
    hide Effect, Apply;
    if a == [] {
      assert a + b == b;
    } else {
      var next := Apply(m, Effect(m, c, a[0]).value).value;
      RelocAllAppend(next, c, a[1..], b);
      assert (a + b)[0] == a[0] && (a + b)[1..] == a[1..] + b;
    }
  }

  /** Linking a well-formed image leaves each slot with the word its entry asks for,
      changes no other byte, and returns the program's entry point. */
  lemma LinksExactly(m: Memory, sp: u64, tables: Memory, s: Start, lib: seq<Symbol>)
    requires ReadStart(m, sp) == Got(s) && WellFormed(m, tables, s.c, lib, s.plt + s.rela)
    ensures LdMain(m, sp).Got? && LdMain(m, sp).value.1 == s.entry
    ensures var linked, rs := LdMain(m, sp).value.0, s.plt + s.rela;
            && linked.Keys == m.Keys
            && (forall r :: r in rs && Intended(tables, s.c, lib, r).value.Put? ==>
                  var e := Intended(tables, s.c, lib, r).value;
                  Load(linked, e.slot, 8) == Got(e.value))
            && forall x :: x in m && (forall r :: r in rs ==> !Covers(Intended(tables, s.c, lib, r).value, x)) ==>
                 linked[x] == m[x]
  {
    hide ReadStart, Intended, Load, AllApart, StoreAll;
    var rs := s.plt + s.rela;
    var es := Changes(tables, s.c, lib, rs);
    LdMainStores(m, sp, tables, s, lib);
    forall r | r in rs && Intended(tables, s.c, lib, r).value.Put?
      ensures Load(StoreAll(m, es), Intended(tables, s.c, lib, r).value.slot, 8) == Got(Intended(tables, s.c, lib, r).value.value)
    {
      var i :| 0 <= i < |rs| && rs[i] == r;
      assert es[i] in es;
      StoredWord(m, es, es[i]);
    }
    forall x | x in m && forall r :: r in rs ==> !Covers(Intended(tables, s.c, lib, r).value, x)
      ensures StoreAll(m, es)[x] == m[x]
    {
      forall e | e in es
        ensures !Covers(e, x)
      {
        var i :| 0 <= i < |es| && es[i] == e;
        assert rs[i] in rs;
      }
      StoredOutside(m, es, x);
    }
  }

  /** So in the linked memory a slot holds the word the ABI asks for if and only if its entry is
      not a GLOB_DAT with an addend. */
  lemma LinksByTheAbi(m: Memory, sp: u64, tables: Memory, s: Start, lib: seq<Symbol>, r: nat)
    requires ReadStart(m, sp) == Got(s) && WellFormed(m, tables, s.c, lib, s.plt + s.rela)
    requires r in s.plt + s.rela
    ensures LdMain(m, sp).Got? && ByTheAbi(tables, s.c, lib, r).Got?
    ensures var f := ByTheAbi(tables, s.c, lib, r).value;
            f.Put? ==> (Load(LdMain(m, sp).value.0, f.slot, 8) == Got(f.value) <==> !GlobDatWithAddend(tables, r))
  {
    LinksExactly(m, sp, tables, s, lib);
    hide ReadStart, Load, LdMain, Intended, ByTheAbi, GlobDatWithAddend, Changes, AllApart, SlotsOk, Exports;
    MeetsTheAbi(tables, s.c, lib, r);
  }

  /** Entry 0: a GLOB_DAT for symbol 0 with addend 5 and the slot at 64; at 32 the symbol, at 40 its empty
      name, at 0 a library without program headers. */
  function Sample(size: nat): Memory {
    map x: nat | x < size :: SampleByte(x)
  }

  function SampleByte(x: nat): byte {
    if x == 8 then 6 else if x == 16 then 5 else 0
  }

  const SAMPLE := Context(64, 0, 32, 40)

  lemma {:induction false} AllZero(s: seq<byte>)
    requires forall i :: 0 <= i < |s| ==> s[i] == 0
    ensures FromLE(s) == 0
  {
    if s != [] {
      AllZero(s[1..]);
    }
  }

  lemma SampleWord(size: nat, a: nat, k: nat)
    requires a + k <= size <= 72 && 1 <= k <= 8 && (a + k <= 8 || a == 8 || a == 16 || 17 <= a)
    ensures Load(Sample(size), a, k) == Got(if a == 8 then 6 else if a == 16 then 5 else 0)
  {
    hide FromLE;
    var s := BytesAt(Sample(size), a, k);
    assert forall i :: 1 <= i < k ==> s[i] == 0;
    OneByte(s);
  }

  lemma OneByte(s: seq<byte>)
    requires s != [] && forall i :: 1 <= i < |s| ==> s[i] == 0
    ensures FromLE(s) == s[0]
  {
    AllZero(s[1..]);
  }

  lemma SampleReads(size: nat)
    requires 64 <= size <= 72
    ensures Exports(Sample(size), 0) == Got([]) && NameOf(Sample(size), SAMPLE, 0) == Got([])
    ensures Intended(Sample(size), SAMPLE, [], 0) == Got(Put(64, 5))
    ensures ByTheAbi(Sample(size), SAMPLE, [], 0) == Got(Put(64, 0))
  {
    SampleWord(size, 0, 8);
    SampleWord(size, 8, 8);
    SampleWord(size, 16, 8);
    SampleWord(size, 32, 8);
    SampleWord(size, 32, 4);
    SampleWord(size, 56, 2);
    hide Load;
    assert CStr(Sample(size), 40) == Got([]);
    assert FindDynamic(Sample(size), 0, 0, 0) == Got(0);
  }

  /** On a well-formed image the slot of a GLOB_DAT for a symbol the library does not have ends at 5, the addend,
      where the ABI asks for 0. */
  lemma AddendReachesTheSlot()
    ensures WellFormed(Sample(72), Sample(64), SAMPLE, [], [0])
    ensures RelocAll(Sample(72), SAMPLE, [0]).Got?
    ensures Load(RelocAll(Sample(72), SAMPLE, [0]).value, 64, 8) == Got(5)
    ensures ByTheAbi(Sample(64), SAMPLE, [], 0) == Got(Put(64, 0))
  {
    hide Sample, Intended, ByTheAbi, Exports, Load, Effect, RelocAll, Write, Within, SlotOk, StoreAll, AllMapped;
    var m, t := Sample(72), Sample(64);
    SampleReads(64);
    SampleShape();
    var es := Changes(t, SAMPLE, [], [0]);
    assert es == [Put(64, 5)];
    RelocAllStores(m, t, SAMPLE, [], [0]);
    StoredWord(m, es, es[0]);
  }

  lemma SampleShape()
    ensures Within(Sample(64), Sample(72)) && SlotOk(Sample(72), Sample(64), Put(64, 5))
  {
  }

  lemma LdMainStores(m: Memory, sp: u64, tables: Memory, s: Start, lib: seq<Symbol>)
    requires ReadStart(m, sp) == Got(s) && WellFormed(m, tables, s.c, lib, s.plt + s.rela)
    ensures LdMain(m, sp) == Got((StoreAll(m, Changes(tables, s.c, lib, s.plt + s.rela)), s.entry))
  {
    hide ReadStart, Effect, Intended, Exports, Within, StoreAll, AllApart, SlotOk;
    var es := Changes(tables, s.c, lib, s.plt + s.rela);
    forall r | r in s.plt
      ensures r in s.plt + s.rela
    {
    }
    var first := Changes(tables, s.c, lib, s.plt);
    assert first == es[..|s.plt|];
    assert SlotsOk(m, tables, first) by {
      assert forall e :: e in first ==> e in es;
    }
    RelocAllStores(m, tables, s.c, lib, s.plt);
    RelocAllStores(m, tables, s.c, lib, s.plt + s.rela);
    RelocAllAppend(m, s.c, s.plt, s.rela);
  }

  /** Any order of the entries gives the same memory; in particular RELA before JMPREL. */
  lemma AnyOrder(m: Memory, tables: Memory, c: Context, lib: seq<Symbol>, rs: seq<nat>, qs: seq<nat>)
    requires WellFormed(m, tables, c, lib, rs)
    requires forall r :: r in rs <==> r in qs
    ensures RelocAll(m, c, rs).Got? && RelocAll(m, c, qs) == RelocAll(m, c, rs)
  {
    hide Effect, Intended, Exports, Within, StoreAll, AllApart, SlotOk;
    var es, fs := Changes(tables, c, lib, rs), Changes(tables, c, lib, qs);
    SameChanges(tables, c, lib, rs, qs);
    SameChanges(tables, c, lib, qs, rs);
    RelocAllStores(m, tables, c, lib, rs);
    RelocAllStores(m, tables, c, lib, qs);
    StoredInAnyOrder(m, es, fs);
  }

  lemma SameChanges(tables: Memory, c: Context, lib: seq<Symbol>, rs: seq<nat>, qs: seq<nat>)
    requires forall r :: r in rs ==> Intended(tables, c, lib, r).Got?
    requires forall r :: r in rs <==> r in qs
    ensures forall e :: e in Changes(tables, c, lib, rs) ==> e in Changes(tables, c, lib, qs)
  {
    hide Intended;
    var es, fs := Changes(tables, c, lib, rs), Changes(tables, c, lib, qs);
    forall e | e in es
      ensures e in fs
    {
      var i :| 0 <= i < |es| && es[i] == e;
      assert rs[i] in qs;
      var j :| 0 <= j < |qs| && qs[j] == rs[i];
      assert fs[j] == e;
    }
  }
}

/** The linker's loops and in-place stores (userland/ldeuro.c). */
module LdEuro {
  import opened Common
  import opened LinkMemory
  import opened LinkTables
  import opened Linking

  method StringsEqual(m: Memory, a0: nat, b0: nat) returns (r: Read<bool>)
    ensures r == StrEq(m, a0, b0)
    ensures CStr(m, a0).Got? && CStr(m, b0).Got? ==> r == Got(CStr(m, a0).value == CStr(m, b0).value)
  {
    if CStr(m, a0).Got? && CStr(m, b0).Got? {
      StrEqIsEquality(m, a0, b0);
    }
    hide CStr;
    var a, b := a0, b0;
    var x :- Peek(m, a);
    var y :- Peek(m, b);
    while x != 0 && x == y
      invariant Peek(m, a) == Got(x) && Peek(m, b) == Got(y) && StrEq(m, a, b) == StrEq(m, a0, b0)
      decreases U64 - a
    {
      a, b := a + 1, b + 1;
      x :- Peek(m, a);
      y :- Peek(m, b);
    }
    return Got(x == y);
  }

  method FindSegment(m: Memory, headers: u64, n: u64) returns (r: Read<u64>)
    ensures r == FindDynamic(m, headers, 0, n)
  {
    hide Load;
    var i := 0;
    while i < n
      invariant i <= n && FindDynamic(m, headers, i, n) == FindDynamic(m, headers, 0, n)
    {
      var e: nat := Wrap(headers + i * 56);
      var kind :- Load(m, e, 4);
      if kind == PT_DYNAMIC {
        var address :- Load(m, e + 16, 8);
        return Got(address);
      }
      i := i + 1;
    }
    return Got(0);
  }

  /** One pass over a library's dynamic section, the last of each tag winning. */
  method FindTables(m: Memory, base: u64, start: u64) returns (r: Read<Tables>)
    ensures match Pairs(m, start, [])
            case Fault => r == Fault
            case Got(ps) => r == Got(Tables(LastOf(ps, DT_SYMTAB, base), LastOf(ps, DT_STRTAB, base), LastOf(ps, DT_HASH, base)))
  {
    hide Load, LastOf;
    var d: nat := start;
    var symtab: u64, strtab: u64, hash: u64 := 0, 0, 0;
    ghost var seen: seq<(u64, u64)> := [];
    NoneSeen(DT_SYMTAB, base);
    NoneSeen(DT_STRTAB, base);
    NoneSeen(DT_HASH, base);
    var tag :- Load(m, d, 8);
    while tag != 0
      invariant Load(m, d, 8) == Got(tag) && Pairs(m, d, seen) == Pairs(m, start, [])
      invariant symtab == LastOf(seen, DT_SYMTAB, base)
      invariant strtab == LastOf(seen, DT_STRTAB, base)
      invariant hash == LastOf(seen, DT_HASH, base)
      decreases U64 - d
    {
      var val :- Load(m, d + 8, 8);
      LastOfNext(seen, (tag, val), DT_SYMTAB, base);
      LastOfNext(seen, (tag, val), DT_STRTAB, base);
      LastOfNext(seen, (tag, val), DT_HASH, base);
      if tag == DT_SYMTAB {
        symtab := Wrap(base + val);
      } else if tag == DT_STRTAB {
        strtab := Wrap(base + val);
      } else if tag == DT_HASH {
        hash := Wrap(base + val);
      }
      seen := seen + [(tag, val)];
      d := d + 16;
      tag :- Load(m, d, 8);
    }
    return Got(Tables(symtab, strtab, hash));
  }

  lemma NoneSeen(tag: u64, base: u64)
    ensures LastOf([], tag, base) == 0
  {
  }

  method ScanSymbols(m: Memory, base: u64, t: Tables, n: u64, name: nat) returns (r: Read<u64>)
    ensures r == Scan(m, base, t, 0, n, name)
  {
    hide Load, StrEq, CStr;
    var i := 0;
    while i < n
      invariant i <= n && Scan(m, base, t, i, n, name) == Scan(m, base, t, 0, n, name)
    {
      var s: nat := Wrap(t.symtab + i * 24);
      var shndx :- Load(m, s + 6, 2);
      if shndx != 0 {
        var off :- Load(m, s, 4);
        var same :- StringsEqual(m, Wrap(t.strtab + off), name);
        if same {
          var value :- Load(m, s + 8, 8);
          return Got(Wrap(base + value));
        }
      }
      i := i + 1;
    }
    return Got(0);
  }

  method ReadLibTables(m: Memory, base: u64) returns (r: Read<Option<Tables>>)
    ensures r == LibTables(m, base)
  {
    hide Load, FindDynamic, Pairs, LastOf;
    var phoff :- Load(m, base as nat + 32, 8);
    var phnum :- Load(m, base as nat + 56, 2);
    var dynamic :- FindSegment(m, Wrap(base + phoff), phnum);
    if dynamic == 0 {
      return Got(None);
    }
    var t :- FindTables(m, base, Wrap(base + dynamic));
    return Got(if t.symtab == 0 || t.strtab == 0 || t.hash == 0 then None else Some(t));
  }

  /** The first defined symbol of that name, 0 when the library has none. */
  method LookupSymbol(m: Memory, base: u64, name: nat) returns (r: Read<u64>)
    ensures r == Lookup(m, base, name)
    ensures Exports(m, base).Got? && CStr(m, name).Got? ==>
              r == Got(Resolve(Exports(m, base).value, base, CStr(m, name).value))
  {
    if Exports(m, base).Got? && CStr(m, name).Got? {
      LookupFindsFirst(m, base, name);
    }
    hide Load, LibTables, Scan, CStr, Exports, Resolve;
    var t :- ReadLibTables(m, base);
    if t.None? {
      return Got(0);
    }
    var n :- Load(m, t.value.hash as nat + 4, 4);
    r := ScanSymbols(m, base, t.value, n, name);
  }

  method FindAuxv(m: Memory, start: u64) returns (r: Read<nat>)
    ensures r == SkipEnvironment(m, start)
  {
    hide Load;
    var p: nat := start;
    var w :- Load(m, p, 8);
    while w != 0
      invariant Load(m, p, 8) == Got(w) && SkipEnvironment(m, p) == SkipEnvironment(m, start)
      decreases U64 - p
    {
      p := p + 8;
      w :- Load(m, p, 8);
    }
    return Got(p + 8);
  }

  /** A tag and value table, in order, up to its zero tag. */
  method ReadPairs(m: Memory, start: nat) returns (r: Read<seq<(u64, u64)>>)
    ensures r == Pairs(m, start, [])
  {
    hide Load;
    var d, seen := start, [];
    var tag :- Load(m, d, 8);
    while tag != 0
      invariant Load(m, d, 8) == Got(tag) && Pairs(m, d, seen) == Pairs(m, start, [])
      decreases U64 - d
    {
      var val :- Load(m, d + 8, 8);
      seen := seen + [(tag, val)];
      d := d + 16;
      tag :- Load(m, d, 8);
    }
    return Got(seen);
  }

  class Process {
    var mem: Memory

    constructor (image: Memory)
      ensures mem == image
    {
      mem := image;
    }

    method RelocEntry(row: nat, c: Context) returns (r: Read<()>)
      modifies this
      ensures match Effect(old(mem), c, row)
              case Fault => r.Fault?
              case Got(e) => r.Got? == Apply(old(mem), e).Got? && (r.Got? ==> mem == Apply(old(mem), e).value)
      ensures r.Fault? ==> mem == old(mem)
    {
      hide Load, Lookup, CStr, Exports, Resolve, Write;
      var offset :- Load(mem, row, 8);
      var info :- Load(mem, row + 8, 8);
      var addend :- Load(mem, row + 16, 8);
      var kind, sym := info % U32, info / U32;
      var slot := Wrap(c.exe + offset);
      if kind == R_RELATIVE {
        r := StoreWord(slot, Wrap(c.exe + addend));
      } else if kind == R_JUMP_SLOT || kind == R_GLOB_DAT || kind == R_64 {
        var name :- Load(mem, Wrap(c.symtab + sym * 24), 4);
        var v :- LookupSymbol(mem, c.libc, Wrap(c.strtab + name));
        r := StoreWord(slot, if kind == R_JUMP_SLOT then v else Wrap(v + addend));
      } else {
        return Got(());
      }
    }

    method StoreWord(slot: u64, value: u64) returns (r: Read<()>)
      modifies this
      ensures r.Got? == Apply(old(mem), Put(slot, value)).Got?
      ensures mem == if r.Got? then Apply(old(mem), Put(slot, value)).value else old(mem)
    {
      if !Mapped(mem, slot, 8) {
        return Fault;
      }
      mem := Write(mem, slot, value);
      return Got(());
    }

    /** Every whole entry of one table, in order. */
    method Reloc(addr: u64, size: u64, c: Context) returns (r: Read<()>)
      modifies this
      ensures match RelocAll(old(mem), c, Rows(addr, size))
              case Fault => r.Fault?
              case Got(m) => r.Got? && mem == m
      ensures mem == Reached(old(mem), c, Rows(addr, size))
    {
      hide Effect, Apply, Rows, RelocAll, Reached;
      var o, i := 0, 0;
      ghost var rs := Rows(addr, size);
      assert rs[0..] == rs;
      while o + 24 <= size
        invariant o == i * 24 <= size && i <= |rs|
        invariant RelocAll(mem, c, rs[i..]) == RelocAll(old(mem), c, rs)
        invariant Reached(mem, c, rs[i..]) == Reached(old(mem), c, rs)
      {
        RowAt(addr, size, i);
        NextRow(mem, c, rs, i);
        var done :- RelocEntry(Wrap(addr + o), c);
        o, i := o + 24, i + 1;
      }
      NoRow(mem, c, rs, i);
      return Got(());
    }

    /** Link the program; returns the address to jump to. A run that faults has stored the words
        of the entries before the faulting one. */
    method Link(sp: u64) returns (r: Read<u64>)
      modifies this
      ensures match LdMain(old(mem), sp)
              case Fault => r.Fault?
              case Got(done) => r == Got(done.1) && mem == done.0
      ensures match ReadStart(old(mem), sp)
              case Fault => mem == old(mem)
              case Got(s) => mem == Reached(old(mem), s.c, s.plt + s.rela)
    {
      hide Load, SkipEnvironment, Pairs, FindDynamic, LastOf, RelocAll, Rows, Reached;
      var argc: nat :- Load(mem, sp, 8);
      var auxv :- FindAuxv(mem, Wrap(sp as nat + (argc + 2) * 8));
      var aux :- ReadPairs(mem, auxv);
      var exe := LastOf(aux, AT_EURO_EXE_BASE, 0);
      var dynamic :- FindSegment(mem, LastOf(aux, AT_PHDR, 0), LastOf(aux, AT_PHNUM, 0));
      var dyn :- ReadPairs(mem, Wrap(exe as nat + dynamic));
      var c := Context(exe, LastOf(aux, AT_EURO_LIBC_BASE, 0), LastOf(dyn, DT_SYMTAB, exe), LastOf(dyn, DT_STRTAB, exe));
      var plt, rela := LastOf(dyn, DT_JMPREL, exe), LastOf(dyn, DT_RELA, exe);
      ghost var s := ReadStart(mem, sp).value;
      ReachedTwice(mem, c, s.plt, s.rela);
      NoRows(mem, c);
      if plt != 0 {
        var _ :- Reloc(plt, LastOf(dyn, DT_PLTRELSZ, 0), c);
      }
      NoRows(mem, c);
      if rela != 0 {
        var _ :- Reloc(rela, LastOf(dyn, DT_RELASZ, 0), c);
      }
      return Got(LastOf(aux, AT_ENTRY, 0));
    }
  }

  lemma RowAt(addr: u64, size: u64, i: nat)
    requires i * 24 + 24 <= size
    ensures i < |Rows(addr, size)| && Rows(addr, size)[i] == Wrap(addr + i * 24)
  {
  }

  lemma NextRow(m: Memory, c: Context, rs: seq<nat>, i: nat)
    requires i < |rs|
    ensures match Effect(m, c, rs[i])
            case Fault => RelocAll(m, c, rs[i..]).Fault?
            case Got(e) =>
              if Apply(m, e).Fault? then RelocAll(m, c, rs[i..]).Fault?
              else RelocAll(m, c, rs[i..]) == RelocAll(Apply(m, e).value, c, rs[i + 1..])
    ensures Reached(m, c, rs[i..]) ==
              if Effect(m, c, rs[i]).Fault? || Apply(m, Effect(m, c, rs[i]).value).Fault? then m
              else Reached(Apply(m, Effect(m, c, rs[i]).value).value, c, rs[i + 1..])
  {
    hide Effect, Apply;
    assert rs[i..][1..] == rs[i + 1..];
  }

  lemma NoRow(m: Memory, c: Context, rs: seq<nat>, i: nat)
    requires i <= |rs|
    ensures i == |rs| ==> RelocAll(m, c, rs[i..]) == Got(m) && Reached(m, c, rs[i..]) == m
  {
  }

  lemma {:induction false} ReachedTwice(m: Memory, c: Context, a: seq<nat>, b: seq<nat>)
    ensures Reached(m, c, a + b) ==
              if RelocAll(m, c, a).Fault? then Reached(m, c, a) else Reached(RelocAll(m, c, a).value, c, b)
    ensures RelocAll(m, c, a).Got? ==> RelocAll(m, c, a).value == Reached(m, c, a)
    decreases |a|
  {
    hide Effect, Apply;
    if a == [] {
      assert a + b == b;
    } else {
      assert (a + b)[0] == a[0] && (a + b)[1..] == a[1..] + b;
      if Effect(m, c, a[0]).Got? && Apply(m, Effect(m, c, a[0]).value).Got? {
        ReachedTwice(Apply(m, Effect(m, c, a[0]).value).value, c, a[1..], b);
      }
    }
  }

  lemma NoRows(m: Memory, c: Context)
    ensures RelocAll(m, c, []) == Got(m) && Reached(m, c, []) == m
  {
  }
}
