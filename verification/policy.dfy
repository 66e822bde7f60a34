/** Per-app policies: the decision, the text form, and what learning proposes. */
module Policies {
  import opened Common
  import opened Strings

  const SCHEMA: u32 := 1

  const HARD_DENY: seq<string> :=
    ["/etc/euroid", "/etc/shadow", "/etc/fde", "/etc/euroguard", "/etc/vault", "/etc/euroapps", "/etc/euroagent"]
  const BASE_READ: seq<string> :=
    ["/lib", "/usr/", "/pack/", "/bin/", "/dev/", "/proc/", "/sys/", "/run/", "/etc/fonts", "/etc/ld.so",
     "/etc/localtime", "/etc/keymap", "/pkg/"]
  const BASE_WRITE: seq<string> := ["/tmp/", "/dev/"]

  datatype Policy = Policy(schema: u32, app: string, read: seq<string>, write: seq<string>,
                           deny: seq<string>, domains: seq<string>)

  datatype Want = Read(path: string) | Write(path: string) | Domain(name: string)

  // ---------- the decision ----------

  /** `path` lies under `prefix`; a prefix that ends in a slash also covers the directory
      itself. */
  predicate Under(path: string, prefix: string) {
    prefix <= path || (prefix != "" && prefix[|prefix| - 1] == '/' && path == prefix[..|prefix| - 1])
  }

  predicate UnderAny(path: string, prefixes: seq<string>) {
    exists i :: 0 <= i < |prefixes| && Under(path, prefixes[i])
  }

  predicate Allows(p: Policy, path: string, write: bool) {
    if UnderAny(path, HARD_DENY) || UnderAny(path, p.deny) then false
    else if path == "" || path[0] != '/' then true
    else if write then UnderAny(path, p.write) || UnderAny(path, BASE_WRITE)
    else UnderAny(path, p.read) || UnderAny(path, p.write) || UnderAny(path, BASE_READ)
  }

  predicate IsDot(c: char) {
    c == '.'
  }

  /** A query name without its trailing dots. */
  function Query(name: string): string {
    DropBack(name, IsDot)
  }

  predicate EndsWith(s: string, suffix: string) {
    |suffix| <= |s| && s[|s| - |suffix|..] == suffix
  }

  /** The domain itself or a name below it. */
  predicate InDomain(n: string, d: string) {
    n == d || EndsWith(n, "." + d)
  }

  predicate Resolves(p: Policy, name: string) {
    exists i :: 0 <= i < |p.domains| && InDomain(Query(name), p.domains[i])
  }

  // ---------- what each entry of a policy does ----------

  /** A prefix covers what continues it, and a directory's prefix the directory itself. */
  lemma UnderMeans(path: string, prefix: string)
    ensures Under(path, prefix) <==> (exists rest :: path == prefix + rest) || path + "/" == prefix
  {
    if prefix <= path {
      assert path == prefix + path[|prefix|..];
    }
  }

  predicate Absolute(path: string) {
    "/" <= path
  }

  lemma UnderOneMore(path: string, prefixes: seq<string>, x: string)
    ensures UnderAny(path, prefixes + [x]) <==> UnderAny(path, prefixes) || Under(path, x)
  {
    hide Under;
    var more := prefixes + [x];
    assert more[|prefixes|] == x;
    if UnderAny(path, prefixes) {
      var i :| 0 <= i < |prefixes| && Under(path, prefixes[i]);
      assert more[i] == prefixes[i];
    }
  }

  /** One more deny entry refuses exactly what lies under it, for reading and writing. */
  lemma DenyRefuses(p: Policy, d: string, path: string, write: bool)
    ensures Allows(p.(deny := p.deny + [d]), path, write) <==> Allows(p, path, write) && !Under(path, d)
  {
    hide Under, UnderAny;
    UnderOneMore(path, p.deny, d);
  }

  /** One more read entry grants reading of exactly the absolute paths under it that no deny covers. */
  lemma ReadGrants(p: Policy, r: string, path: string, write: bool)
    ensures Allows(p.(read := p.read + [r]), path, write) <==>
            || Allows(p, path, write)
            || (!write && Absolute(path) && Under(path, r)
                && forall d :: d in HARD_DENY || d in p.deny ==> !Under(path, d))
  {
    hide Under;
    UnderOneMore(path, p.read, r);
  }

  /** One more write entry grants reading and writing of exactly those under it. */
  lemma WriteGrants(p: Policy, w: string, path: string, write: bool)
    ensures Allows(p.(write := p.write + [w]), path, write) <==>
            || Allows(p, path, write)
            || (Absolute(path) && Under(path, w)
                && forall d :: d in HARD_DENY || d in p.deny ==> !Under(path, d))
  {
    hide Under;
    UnderOneMore(path, p.write, w);
  }

  /** Domains, name and schema have no say over paths. */
  lemma OnlyPathListsCount(p: Policy, q: Policy, path: string, write: bool)
    requires p.read == q.read && p.write == q.write && p.deny == q.deny
    ensures Allows(p, path, write) == Allows(q, path, write)
  {
  }

  /** With no entries at all: relative paths, and of the others those of the system. */
  lemma NoEntriesAllow(p: Policy, path: string, write: bool)
    requires p.read == [] && p.write == [] && p.deny == []
    ensures Allows(p, path, write) <==>
            || !Absolute(path)
            || ((exists b :: b in (if write then BASE_WRITE else BASE_READ) && Under(path, b))
                && forall d :: d in HARD_DENY ==> !Under(path, d))
  {
    if !Absolute(path) {
      RelativeIsNotDenied(path);
    }
    hide Under;
    var base := if write then BASE_WRITE else BASE_READ;
    if b :| b in base && Under(path, b) {
      assert UnderAny(path, base);
    }
  }

  lemma RelativeIsNotDenied(path: string)
    requires !Absolute(path)
    ensures !UnderAny(path, HARD_DENY)
  {
    forall i | 0 <= i < |HARD_DENY|
      ensures !Under(path, HARD_DENY[i])
    {
      assert HARD_DENY[i][0] == '/' && HARD_DENY[i][|HARD_DENY[i]| - 1] != '/';
    }
  }

  /** No list grants what a deny covers. */
  lemma DeniedIsRefused(p: Policy, d: string, path: string, write: bool)
    requires (d in HARD_DENY || d in p.deny) && Under(path, d)
    ensures !Allows(p, path, write)
  {
    hide Under;
  }

  /** A query's name is what is asked for, up to the dots at its end. */
  lemma QueryMeans(name: string)
    ensures exists dots :: name == Query(name) + dots && forall c :: c in dots ==> c == '.'
    ensures Query(name) == "" || Query(name)[|Query(name)| - 1] != '.'
  {
    var _ := QueryRest(name);
  }

  lemma {:induction false} QueryRest(name: string) returns (dots: string)
    ensures name == Query(name) + dots && forall c :: c in dots ==> c == '.'
    ensures Query(name) == "" || Query(name)[|Query(name)| - 1] != '.'
    decreases |name|
  {
    if name != "" && IsDot(name[|name| - 1]) {
      var less := QueryRest(name[..|name| - 1]);
      dots := less + ".";
    } else {
      dots := "";
    }
  }

  /** One more domain adds exactly itself and the names below it; no domains, no names. */
  lemma DomainGrants(p: Policy, d: string, name: string)
    ensures Resolves(p.(domains := p.domains + [d]), name) <==>
            Resolves(p, name) || Query(name) == d || exists host :: Query(name) == host + "." + d
    ensures p.domains == [] ==> !Resolves(p, name)
  {
    hide Query;
    var n, more := Query(name), p.domains + [d];
    assert more[|p.domains|] == d;
    if Resolves(p, name) {
      var i :| 0 <= i < |p.domains| && InDomain(n, p.domains[i]);
      assert more[i] == p.domains[i];
    }
    BelowMeans(n, d);
  }

  lemma BelowMeans(n: string, d: string)
    ensures EndsWith(n, "." + d) <==> exists host :: n == host + "." + d
  {
    if EndsWith(n, "." + d) {
      var host := n[..|n| - |d| - 1];
      assert n == host + ("." + d) == host + "." + d;
    }
    if host :| n == host + "." + d {
      assert n == host + ("." + d);
    }
  }

  // ---------- the proposal ----------

  function AddWant(p: Policy, w: Want): Policy {
    match w
    case Read(x) =>
      if !UnderAny(x, HARD_DENY) && x !in p.read && x !in p.write then p.(read := p.read + [x]) else p
    case Write(x) =>
      if !UnderAny(x, HARD_DENY) && x !in p.write then p.(write := p.write + [x]) else p
    case Domain(d) =>
      if d !in p.domains then p.(domains := p.domains + [d]) else p
  }

  ghost function Proposed(p: Policy, wants: seq<Want>): Policy
    decreases |wants|
  {
    if wants == [] then p else Proposed(AddWant(p, wants[0]), wants[1..])
  }

  method Propose(base: Policy, wants: seq<Want>) returns (p: Policy)
    ensures p == Proposed(base, wants)
  {
    p := base;
    for i := 0 to |wants|
      invariant Proposed(p, wants[i..]) == Proposed(base, wants)
    {
      assert wants[i..][1..] == wants[i + 1..];
      p := AddWant(p, wants[i]);
    }
  }

  /** Lists only grow; everything else stays. */
  ghost predicate Extends(p: Policy, q: Policy) {
    q.schema == p.schema && q.app == p.app && q.deny == p.deny
    && p.read <= q.read && p.write <= q.write && p.domains <= q.domains
  }

  lemma {:induction false} ProposalExtends(p: Policy, wants: seq<Want>)
    ensures Extends(p, Proposed(p, wants))
    decreases |wants|
  {
    if wants != [] {
      ProposalExtends(AddWant(p, wants[0]), wants[1..]);
    }
  }

  lemma UnderMember(path: string, prefixes: seq<string>)
    requires path in prefixes
    ensures UnderAny(path, prefixes)
  {
  }

  /** Nothing that was allowed is lost. */
  lemma ExtendsAllows(p: Policy, q: Policy, path: string, write: bool)
    requires Extends(p, q) && Allows(p, path, write)
    ensures Allows(q, path, write)
  {
  }

  lemma ExtendsResolves(p: Policy, q: Policy, name: string)
    requires Extends(p, q) && Resolves(p, name)
    ensures Resolves(q, name)
  {
  }

  /** The want is written into the policy, unless it is hard-denied. */
  ghost predicate Served(p: Policy, w: Want) {
    match w
    case Read(x) => UnderAny(x, HARD_DENY) || x in p.read || x in p.write
    case Write(x) => UnderAny(x, HARD_DENY) || x in p.write
    case Domain(d) => d in p.domains
  }

  lemma ServedStays(p: Policy, q: Policy, w: Want)
    requires Extends(p, q) && Served(p, w)
    ensures Served(q, w)
  {
  }

  lemma {:induction false} EveryWantServed(p: Policy, wants: seq<Want>, i: nat)
    requires i < |wants|
    ensures Served(Proposed(p, wants), wants[i])
    decreases |wants|
  {
    hide UnderAny, Extends;
    var q := AddWant(p, wants[0]);
    if i == 0 {
      ProposalExtends(q, wants[1..]);
      ServedStays(q, Proposed(q, wants[1..]), wants[0]);
    } else {
      EveryWantServed(q, wants[1..], i - 1);
    }
  }

  /** Each recorded refusal that is neither hard-denied nor under the policy's own denies
      is allowed by the proposal. */
  lemma ProposalIsSound(base: Policy, wants: seq<Want>, i: nat)
    requires i < |wants|
    ensures var p := Proposed(base, wants);
            match wants[i]
            case Read(x) => !UnderAny(x, HARD_DENY) && !UnderAny(x, base.deny) ==> Allows(p, x, false)
            case Write(x) => !UnderAny(x, HARD_DENY) && !UnderAny(x, base.deny) ==> Allows(p, x, true) && Allows(p, x, false)
            case Domain(d) => Query(d) == d ==> Resolves(p, d)
  {
    hide UnderAny, Proposed;
    var p := Proposed(base, wants);
    EveryWantServed(base, wants, i);
    ProposalExtends(base, wants);
    match wants[i] {
      case Read(x) =>
        if x in p.read { UnderMember(x, p.read); }
        if x in p.write { UnderMember(x, p.write); }
      case Write(x) =>
        if x in p.write { UnderMember(x, p.write); }
      case Domain(d) =>
        var k :| 0 <= k < |p.domains| && p.domains[k] == d;
    }
  }

  /** What the lists gained is what was wanted. */
  ghost predicate GainedOnlyWants(p: Policy, q: Policy, wants: seq<Want>) {
    && (forall x :: x in q.read ==> x in p.read || Read(x) in wants)
    && (forall x :: x in q.write ==> x in p.write || Write(x) in wants)
    && (forall d :: d in q.domains ==> d in p.domains || Domain(d) in wants)
  }

  lemma {:induction false} ProposalGains(p: Policy, wants: seq<Want>)
    ensures GainedOnlyWants(p, Proposed(p, wants), wants)
    decreases |wants|
  {
    hide UnderAny;
    if wants != [] {
      ProposalGains(AddWant(p, wants[0]), wants[1..]);
      assert wants[0] in wants && forall w :: w in wants[1..] ==> w in wants;
    }
  }

  ghost predicate UnderAWant(path: string, wants: seq<Want>, write: bool) {
    exists w :: w in wants && ((w.Write? && Under(path, w.path)) || (!write && w.Read? && Under(path, w.path)))
  }

  /** Whatever is newly allowed lies under a recorded want, and nothing hard-denied is
      ever allowed. */
  lemma ProposalIsMinimal(base: Policy, wants: seq<Want>, path: string, write: bool)
    ensures var p := Proposed(base, wants);
            && (Allows(p, path, write) && !Allows(base, path, write) ==> UnderAWant(path, wants, write))
            && (UnderAny(path, HARD_DENY) ==> !Allows(p, path, write))
  {
    var p := Proposed(base, wants);
    ProposalGains(base, wants);
    ProposalExtends(base, wants);
    hide Proposed, Under;
    if Allows(p, path, write) && !Allows(base, path, write) {
      if UnderAny(path, p.write) && !UnderAny(path, base.write) {
        NewlyUnder(path, base.write, p.write);
      } else {
        NewlyUnder(path, base.read, p.read);
      }
    }
  }

  lemma NewlyUnder(path: string, a: seq<string>, b: seq<string>)
    requires UnderAny(path, b) && !UnderAny(path, a)
    ensures exists x :: x in b && x !in a && Under(path, x)
  {
  }

  lemma ProposalResolvesOnlyWants(base: Policy, wants: seq<Want>, name: string)
    requires Resolves(Proposed(base, wants), name) && !Resolves(base, name)
    ensures exists d :: Domain(d) in wants && InDomain(Query(name), d)
  {
    var p := Proposed(base, wants);
    ProposalGains(base, wants);
    var i :| 0 <= i < |p.domains| && InDomain(Query(name), p.domains[i]);
  }

  /** More wants only extend the proposal, so what is added is in the order of the wants. */
  lemma {:induction false} ProposalGrows(p: Policy, a: seq<Want>, b: seq<Want>)
    ensures Proposed(p, a + b) == Proposed(Proposed(p, a), b)
    ensures Extends(Proposed(p, a), Proposed(p, a + b))
    decreases |a|
  {
    if a == [] {
      assert a + b == b;
      ProposalExtends(p, b);
    } else {
      assert (a + b)[1..] == a[1..] + b;
      ProposalGrows(AddWant(p, a[0]), a[1..], b);
    }
  }

  /** A read want comes into the read list unless it is hard-denied or may be written already. */
  ghost predicate NewRead(p: Policy, wants: seq<Want>, x: string) {
    && !UnderAny(x, HARD_DENY) && x !in p.write
    && exists i :: 0 <= i < |wants| && wants[i] == Read(x) && Write(x) !in wants[..i]
  }

  /** Exactly what each list of the proposal holds. */
  lemma {:induction false} ProposalHolds(p: Policy, wants: seq<Want>, x: string)
    ensures var q := Proposed(p, wants);
            && (x in q.write <==> x in p.write || (Write(x) in wants && !UnderAny(x, HARD_DENY)))
            && (x in q.read <==> x in p.read || NewRead(p, wants, x))
            && (x in q.domains <==> x in p.domains || Domain(x) in wants)
    decreases |wants|
  {
    hide UnderAny;
    if wants != [] {
      var p1 := AddWant(p, wants[0]);
      ProposalHolds(p1, wants[1..], x);
      NewReadLater(p, wants, x);
      assert wants == [wants[0]] + wants[1..];
    }
  }

  lemma NewReadLater(p: Policy, wants: seq<Want>, x: string)
    requires wants != []
    ensures x !in p.read ==>
              (NewRead(p, wants, x) <==>
                 x in AddWant(p, wants[0]).read || NewRead(AddWant(p, wants[0]), wants[1..], x))
  {
    hide UnderAny;
    var rest, p1 := wants[1..], AddWant(p, wants[0]);
    if i :| 0 <= i < |rest| && rest[i] == Read(x) && Write(x) !in rest[..i] {
      assert wants[i + 1] == Read(x) && wants[..i + 1] == [wants[0]] + rest[..i];
    }
    if i :| 0 <= i < |wants| && wants[i] == Read(x) && Write(x) !in wants[..i] {
      if i > 0 {
        assert rest[i - 1] == Read(x) && wants[..i] == [wants[0]] + rest[..i - 1];
      }
    }
  }

  /** And nothing is added twice. */
  lemma {:induction false} ProposalAddsOnce(p: Policy, wants: seq<Want>)
    requires Distinct(p.read) && Distinct(p.write) && Distinct(p.domains)
    ensures var q := Proposed(p, wants); Distinct(q.read) && Distinct(q.write) && Distinct(q.domains)
    decreases |wants|
  {
    hide UnderAny;
    if wants != [] {
      ProposalAddsOnce(AddWant(p, wants[0]), wants[1..]);
    }
  }

  ghost predicate Distinct(v: seq<string>) {
    forall i, j :: 0 <= i < j < |v| ==> v[i] != v[j]
  }

  /** Proposing again from the same wants adds nothing. */
  lemma ProposalIsStable(base: Policy, wants: seq<Want>)
    ensures Proposed(Proposed(base, wants), wants) == Proposed(base, wants)
  {
    forall i | 0 <= i < |wants|
      ensures Served(Proposed(base, wants), wants[i])
    {
      EveryWantServed(base, wants, i);
    }
    NothingToAdd(Proposed(base, wants), wants);
  }

  lemma {:induction false} NothingToAdd(p: Policy, wants: seq<Want>)
    requires forall i :: 0 <= i < |wants| ==> Served(p, wants[i])
    ensures Proposed(p, wants) == p
    decreases |wants|
  {
    if wants != [] {
      assert Served(p, wants[0]);
      NothingToAdd(p, wants[1..]);
    }
  }
}

/** The text form of a policy: what is written, and what is read back. */
module PolicyText {
  import opened Common
  import opened Strings
  import opened Policies

  datatype Error = BadLine | NotAList | NotANumber | UnknownField | NewerSchema | AppMissing

  // ---------- writing ----------

  function Quoted(s: string): string {
    "\"" + s + "\""
  }

  function Items(v: seq<string>): string {
    if v == [] then "" else if |v| == 1 then Quoted(v[0]) else Quoted(v[0]) + "," + (" " + Items(v[1..]))
  }

  function List(v: seq<string>): string {
    "[" + Items(v) + "]"
  }

  function PolicyLines(p: Policy): seq<string> {
    ["[policy]", "schema = " + Display(p.schema), "app = " + Quoted(p.app), ""]
  }

  function PathLines(p: Policy): seq<string> {
    ["[paths]", "read = " + List(p.read), "write = " + List(p.write), "deny = " + List(p.deny), ""]
  }

  function NetLines(p: Policy): seq<string> {
    ["[net]", "domains = " + List(p.domains)]
  }

  function TomlLines(p: Policy): seq<string> {
    PolicyLines(p) + PathLines(p) + NetLines(p)
  }

  function ToToml(p: Policy): string {
    Unlines(TomlLines(p))
  }

  // ---------- reading ----------

  predicate IsBracket(c: char) {
    c == '[' || c == ']'
  }

  /** One entry of a list: spaces, then quotes, removed from both ends. */
  function Clean(s: string): string {
    TrimBy(Trim(s), IsQuote)
  }

  function CleanAll(pieces: seq<string>): seq<string> {
    if pieces == [] then []
    else (if Clean(pieces[0]) == "" then [] else [Clean(pieces[0])]) + CleanAll(pieces[1..])
  }

  function ParseList(v: string): Result<seq<string>, Error> {
    if |v| < 2 || v[0] != '[' || v[|v| - 1] != ']' then Err(NotAList)
    else Ok(CleanAll(SplitOn(v[1..|v| - 1], ',')))
  }

  function FirstEquals(l: string): (i: nat)
    ensures i <= |l| && (i < |l| ==> l[i] == '=') && '=' !in l[..i]
  {
    if l == "" || l[0] == '=' then 0 else 1 + FirstEquals(l[1..])
  }

  datatype Parsing = Parsing(policy: Policy, section: string)

  function SetField(st: Parsing, k: string, v: string): Result<Parsing, Error> {
    var p := st.policy;
    if st.section == "policy" && k == "schema" then
      match ParseU32(v)
      case None => Err(NotANumber)
      case Some(n) => Ok(st.(policy := p.(schema := n)))
    else if st.section == "policy" && k == "app" then
      Ok(st.(policy := p.(app := TrimBy(v, IsQuote))))
    else if st.section == "paths" && k == "read" then
      match ParseList(v) case Err(e) => Err(e) case Ok(x) => Ok(st.(policy := p.(read := x)))
    else if st.section == "paths" && k == "write" then
      match ParseList(v) case Err(e) => Err(e) case Ok(x) => Ok(st.(policy := p.(write := x)))
    else if st.section == "paths" && k == "deny" then
      match ParseList(v) case Err(e) => Err(e) case Ok(x) => Ok(st.(policy := p.(deny := x)))
    else if st.section == "net" && k == "domains" then
      match ParseList(v) case Err(e) => Err(e) case Ok(x) => Ok(st.(policy := p.(domains := x)))
    else Err(UnknownField)
  }

  function ParseLine(st: Parsing, raw: string): Result<Parsing, Error> {
    var l := Trim(raw);
    if l == "" || l[0] == '#' then Ok(st)
    else if l[0] == '[' then Ok(st.(section := TrimBy(l, IsBracket)))
    else
      var i := FirstEquals(l);
      if i == |l| then Err(BadLine) else SetField(st, Trim(l[..i]), Trim(l[i + 1..]))
  }

  function ParseLines(st: Parsing, ls: seq<string>): Result<Parsing, Error>
    decreases |ls|
  {
    if ls == [] then Ok(st)
    else match ParseLine(st, ls[0])
      case Err(e) => Err(e)
      case Ok(next) => ParseLines(next, ls[1..])
  }

  function Finish(p: Policy): Result<Policy, Error> {
    var q := if p.schema == 0 then p.(schema := 1) else p;
    if q.schema > SCHEMA then Err(NewerSchema)
    else if q.app == "" then Err(AppMissing)
    else Ok(q)
  }

  const Blank := Parsing(Policy(0, "", [], [], [], []), "")

  function FromToml(t: string): Result<Policy, Error> {
    match ParseLines(Blank, SplitOn(t, '\n'))
    case Err(e) => Err(e)
    case Ok(st) => Finish(st.policy)
  }

  /** The source's loop over the lines.  (Carriage returns and the empty piece after the
      last newline fall to the trimming.) */
  method Parse(t: string) returns (r: Result<Policy, Error>)
    ensures r == FromToml(t)
  {
    var ls := SplitOn(t, '\n');
    var st := Blank;
    for i := 0 to |ls|
      invariant ParseLines(st, ls[i..]) == ParseLines(Blank, ls)
    {
      assert ls[i..][1..] == ls[i + 1..];
      var next := ParseLine(st, ls[i]);
      if next.Err? {
        return Err(next.error);
      }
      st := next.value;
    }
    return Finish(st.policy);
  }

  // ---------- the format ----------

  /** Entries are quoted and follow each other after a comma and a space. */
  lemma {:induction false} ItemsNext(v: seq<string>, x: string)
    ensures Items(v + [x]) == if v == [] then "\"" + x + "\"" else Items(v) + ", " + ("\"" + x + "\"")
    decreases |v|
  {
    var all := v + [x];
    if v == [] {
      assert all == [x];
    } else {
      ItemsNext(v[1..], x);
      assert all[0] == v[0] && all[1..] == v[1..] + [x];
      var q := Quoted(v[0]);
      if |v| == 1 {
        assert Items(all) == q + "," + (" " + Quoted(x));
        assert q + "," + (" " + Quoted(x)) == q + ", " + Quoted(x);
      } else {
        assert Items(all) == q + "," + (" " + (Items(v[1..]) + ", " + Quoted(x)));
        assert Items(all) == q + "," + (" " + Items(v[1..])) + ", " + Quoted(x);
      }
    }
  }

  /** A list is read piece by piece between its commas: each without spaces and then quotes at its ends, and an
      empty piece is nothing. */
  lemma ListPieces(x: string, y: string)
    ensures ParseList("[" + x + "," + y + "]").Ok? && ParseList("[" + x + "]").Ok? && ParseList("[" + y + "]").Ok?
    ensures ParseList("[" + x + "," + y + "]").value == ParseList("[" + x + "]").value + ParseList("[" + y + "]").value
    ensures ',' !in x ==> ParseList("[" + x + "]").value == if Clean(x) == "" then [] else [Clean(x)]
  {
    hide SplitOn, Clean;
    Bracketed(x);
    Bracketed(y);
    Bracketed(x + "," + y);
    assert "[" + (x + "," + y) + "]" == "[" + x + "," + y + "]";
    SplitAppend(x, y, ',');
    CleanAllAppend(SplitOn(x, ','), SplitOn(y, ','));
    if ',' !in x {
      SplitNone(x, ',');
    }
  }

  lemma Bracketed(x: string)
    ensures ParseList("[" + x + "]") == Ok(CleanAll(SplitOn(x, ',')))
  {
    hide SplitOn, CleanAll;
    var v := "[" + x + "]";
    assert v[1..|v| - 1] == x;
  }

  lemma {:induction false} CleanAllAppend(a: seq<string>, b: seq<string>)
    ensures CleanAll(a + b) == CleanAll(a) + CleanAll(b)
    decreases |a|
  {
    hide Clean;
    if a == [] {
      assert a + b == b;
    } else {
      CleanAllAppend(a[1..], b);
      assert (a + b)[1..] == a[1..] + b;
    }
  }

  // ---------- what a text says ----------

  /** A line of the file: nothing, the name of a section, a key with its value, or none of these. */
  datatype Line = Nothing | Header(name: string) | Assignment(key: string, value: string) | Neither

  ghost function Meaning(raw: string): Line {
    var l := Trim(raw);
    if l == "" || l[0] == '#' then Nothing
    else if l[0] == '[' then Header(TrimBy(l, IsBracket))
    else if '=' !in l then Neither
    else Assignment(Trim(l[..FirstEquals(l)]), Trim(l[FirstEquals(l) + 1..]))
  }

  /** The section after these lines: that of the last header. */
  ghost function SectionAfter(ls: seq<string>): string {
    if ls == [] then ""
    else
      var n := |ls| - 1;
      match Meaning(ls[n])
      case Header(name) => name
      case _ => SectionAfter(ls[..n])
  }

  /** The value last given to a key of a section. */
  ghost function LastValue(ls: seq<string>, section: string, key: string): Option<string> {
    if ls == [] then None
    else
      var n := |ls| - 1;
      match Meaning(ls[n])
      case Assignment(k, v) =>
        if k == key && SectionAfter(ls[..n]) == section then Some(v) else LastValue(ls[..n], section, key)
      case _ => LastValue(ls[..n], section, key)
  }

  /** A line is in order: it says nothing, begins a section, or gives a key of its section a value of the right kind. */
  ghost predicate InOrder(section: string, raw: string) {
    match Meaning(raw)
    case Nothing => true
    case Header(_) => true
    case Neither => false
    case Assignment(k, v) =>
      || (section == "policy" && k == "app")
      || (section == "policy" && k == "schema" && ParseU32(v).Some?)
      || (section == "paths" && (k == "read" || k == "write" || k == "deny") && ParseList(v).Ok?)
      || (section == "net" && k == "domains" && ParseList(v).Ok?)
  }

  ghost function ListValue(ls: seq<string>, section: string, key: string): seq<string> {
    match LastValue(ls, section, key)
    case Some(v) => (match ParseList(v) case Ok(x) => x case Err(_) => [])
    case None => []
  }

  /** What the lines say of each field; 0 and the empty text where they say nothing. */
  ghost function Said(ls: seq<string>): Policy {
    var schema := match LastValue(ls, "policy", "schema")
                  case Some(v) => (match ParseU32(v) case Some(n) => n case None => 0)
                  case None => 0;
    var app := match LastValue(ls, "policy", "app") case Some(v) => TrimBy(v, IsQuote) case None => "";
    Policy(schema, app, ListValue(ls, "paths", "read"), ListValue(ls, "paths", "write"),
           ListValue(ls, "paths", "deny"), ListValue(ls, "net", "domains"))
  }

  lemma {:induction false} EqualsFound(l: string)
    requires '=' in l
    ensures FirstEquals(l) < |l|
  {
    if l[0] != '=' {
      EqualsFound(l[1..]);
    }
  }

  lemma MeaningOfLine(st: Parsing, raw: string)
    ensures match Meaning(raw)
            case Nothing => ParseLine(st, raw) == Ok(st)
            case Header(name) => ParseLine(st, raw) == Ok(st.(section := name))
            case Neither => ParseLine(st, raw) == Err(BadLine)
            case Assignment(k, v) => ParseLine(st, raw) == SetField(st, k, v)
  {
    hide Trim, SetField;
    if '=' in Trim(raw) {
      EqualsFound(Trim(raw));
    }
  }

  lemma LastLine(before: seq<string>, raw: string)
    ensures ParseLines(Blank, before + [raw]) ==
            match ParseLines(Blank, before)
            case Err(e) => Err(e)
            case Ok(st) => ParseLine(st, raw)
  {
    hide ParseLine;
    if ParseLines(Blank, before).Ok? {
      ParseAppended(Blank, before, [raw]);
      var st := ParseLines(Blank, before).value;
      assert ParseLines(st, [raw]) == ParseLine(st, raw);
    } else {
      ParseFails(Blank, before, [raw]);
    }
  }

  lemma {:induction false} ParseFails(st: Parsing, a: seq<string>, b: seq<string>)
    requires ParseLines(st, a).Err?
    ensures ParseLines(st, a + b) == ParseLines(st, a)
    decreases |a|
  {
    hide ParseLine;
    if ParseLine(st, a[0]).Ok? {
      ParseFails(ParseLine(st, a[0]).value, a[1..], b);
      assert (a + b)[1..] == a[1..] + b;
    }
  }

  lemma LastValueNext(before: seq<string>, raw: string, section: string, key: string)
    ensures LastValue(before + [raw], section, key) ==
            match Meaning(raw)
            case Assignment(k, v) =>
              if k == key && SectionAfter(before) == section then Some(v) else LastValue(before, section, key)
            case _ => LastValue(before, section, key)
  {
    hide Meaning;
    assert (before + [raw])[..|before|] == before;
  }

  lemma SaidAfter(before: seq<string>, raw: string)
    ensures match Meaning(raw)
            case Assignment(k, v) =>
              InOrder(SectionAfter(before), raw) ==>
                SetField(Parsing(Said(before), SectionAfter(before)), k, v)
                == Ok(Parsing(Said(before + [raw]), SectionAfter(before)))
            case _ => Said(before + [raw]) == Said(before)
  {
    LastValueNext(before, raw, "policy", "schema");
    LastValueNext(before, raw, "policy", "app");
    LastValueNext(before, raw, "paths", "read");
    LastValueNext(before, raw, "paths", "write");
    LastValueNext(before, raw, "paths", "deny");
    LastValueNext(before, raw, "net", "domains");
    hide LastValue, Meaning, ParseList, ParseU32, TrimBy, SectionAfter;
  }

  lemma SetOrRefused(st: Parsing, raw: string, k: string, v: string)
    requires Meaning(raw) == Assignment(k, v)
    ensures SetField(st, k, v).Ok? <==> InOrder(st.section, raw)
  {
    hide Meaning, ParseList, ParseU32, TrimBy;
  }

  lemma SectionNext(before: seq<string>, raw: string)
    ensures SectionAfter(before + [raw]) ==
            match Meaning(raw)
            case Header(name) => name
            case _ => SectionAfter(before)
  {
    hide Meaning;
    assert (before + [raw])[..|before|] == before;
  }

  lemma ReadNext(before: seq<string>, raw: string)
    requires ParseLines(Blank, before) == Ok(Parsing(Said(before), SectionAfter(before)))
    ensures if InOrder(SectionAfter(before), raw)
            then ParseLines(Blank, before + [raw]) == Ok(Parsing(Said(before + [raw]), SectionAfter(before + [raw])))
            else ParseLines(Blank, before + [raw]).Err?
  {
    hide Said, ParseLines, SectionAfter, ParseLine, SetField, Meaning;
    var st := Parsing(Said(before), SectionAfter(before));
    LastLine(before, raw);
    MeaningOfLine(st, raw);
    SectionNext(before, raw);
    SaidAfter(before, raw);
    if Meaning(raw).Assignment? {
      SetOrRefused(st, raw, Meaning(raw).key, Meaning(raw).value);
    }
  }

  lemma {:induction false} ReadsTheLastOfEach(ls: seq<string>)
    ensures if forall i :: 0 <= i < |ls| ==> InOrder(SectionAfter(ls[..i]), ls[i])
            then ParseLines(Blank, ls) == Ok(Parsing(Said(ls), SectionAfter(ls)))
            else ParseLines(Blank, ls).Err?
  {
    if ls != [] {
      var n := |ls| - 1;
      var before, raw := ls[..n], ls[n];
      assert before + [raw] == ls;
      hide InOrder, SectionAfter, ParseLines, Said;
      ReadsTheLastOfEach(before);
      assert forall i :: 0 <= i < n ==> before[..i] == ls[..i] && before[i] == ls[i];
      if ParseLines(Blank, before).Ok? {
        ReadNext(before, raw);
      } else {
        LastLine(before, raw);
      }
    }
  }

  /** A text is read as a policy exactly when every line is in order in its section, the schema it gives is at most 1,
      and it names a program; each field then is what the last line for it says, and schema 0 reads as 1. */
  lemma ReadLineByLine(t: string)
    ensures var ls := SplitOn(t, '\n');
            && (FromToml(t).Ok? <==>
                  && (forall i :: 0 <= i < |ls| ==> InOrder(SectionAfter(ls[..i]), ls[i]))
                  && Said(ls).schema <= 1 && Said(ls).app != "")
            && (FromToml(t).Ok? ==> FromToml(t).value == Said(ls).(schema := 1))
  {
    hide InOrder, SectionAfter, ParseLines, Said;
    ReadsTheLastOfEach(SplitOn(t, '\n'));
  }

  // ---------- what comes back from reading ----------

  ghost predicate Bare(s: string) {
    s != "" && '\n' !in s && s[0] != '"' && s[|s| - 1] != '"'
  }

  ghost predicate GoodEntry(s: string) {
    Bare(s) && ',' !in s
  }

  ghost predicate GoodList(v: seq<string>) {
    forall i :: 0 <= i < |v| ==> GoodEntry(v[i])
  }

  ghost predicate GoodLists(p: Policy) {
    GoodList(p.read) && GoodList(p.write) && GoodList(p.deny) && GoodList(p.domains)
  }

  /** The policies the text form can carry. */
  ghost predicate Carried(p: Policy) {
    p.schema == SCHEMA && Bare(p.app) && GoodLists(p)
  }

  lemma CleanOk(s: string)
    requires '\n' !in s && ',' !in s
    ensures Clean(s) == "" || GoodEntry(Clean(s))
  {
    TrimOk(s, IsSpace);
    TrimOk(Trim(s), IsQuote);
  }

  lemma {:induction false} CleanAllOk(pieces: seq<string>)
    requires forall i :: 0 <= i < |pieces| ==> '\n' !in pieces[i] && ',' !in pieces[i]
    ensures GoodList(CleanAll(pieces))
  {
    if pieces != [] {
      CleanOk(pieces[0]);
      CleanAllOk(pieces[1..]);
    }
  }

  lemma ParseListOk(v: string)
    requires '\n' !in v
    ensures ParseList(v).Ok? ==> GoodList(ParseList(v).value)
  {
    if ParseList(v).Ok? {
      var inner := v[1..|v| - 1];
      PiecesOk(inner, ',');
      CleanAllOk(SplitOn(inner, ','));
    }
  }

  /** What holds of the policy while it is read line by line. */
  ghost predicate SoFar(p: Policy) {
    (p.app == "" || Bare(p.app)) && GoodLists(p)
  }

  lemma SetFieldOk(st: Parsing, k: string, v: string)
    requires SoFar(st.policy) && '\n' !in v
    ensures SetField(st, k, v).Ok? ==> SoFar(SetField(st, k, v).value.policy)
  {
    hide GoodEntry, ParseList, GoodList;
    ParseListOk(v);
    TrimOk(v, IsQuote);
  }

  lemma ParseLineOk(st: Parsing, raw: string)
    requires SoFar(st.policy) && '\n' !in raw
    ensures ParseLine(st, raw).Ok? ==> SoFar(ParseLine(st, raw).value.policy)
  {
    hide SoFar, SetField;
    var l := Trim(raw);
    TrimOk(raw, IsSpace);
    if l != "" && l[0] != '#' && l[0] != '[' {
      var i := FirstEquals(l);
      if i < |l| {
        TrimOk(l[i + 1..], IsSpace);
        SetFieldOk(st, Trim(l[..i]), Trim(l[i + 1..]));
      }
    }
  }

  lemma {:induction false} ParseLinesOk(st: Parsing, ls: seq<string>)
    requires SoFar(st.policy) && forall i :: 0 <= i < |ls| ==> '\n' !in ls[i]
    ensures ParseLines(st, ls).Ok? ==> SoFar(ParseLines(st, ls).value.policy)
    decreases |ls|
  {
    hide ParseLine, SoFar;
    if ls != [] {
      ParseLineOk(st, ls[0]);
      if ParseLine(st, ls[0]).Ok? {
        ParseLinesOk(ParseLine(st, ls[0]).value, ls[1..]);
      }
    }
  }

  /** Whatever text is accepted, the policy it gives can be carried as text. */
  lemma AcceptedIsCarried(t: string)
    ensures FromToml(t).Ok? ==> Carried(FromToml(t).value)
  {
    PiecesOk(t, '\n');
    ParseLinesOk(Blank, SplitOn(t, '\n'));
  }

  // ---------- what was written comes back ----------

  lemma CleanQuoted(e: string)
    requires Bare(e)
    ensures Clean(Quoted(e)) == e
  {
    var q := Quoted(e);
    TrimNothing(q, IsSpace);
    assert q[1..] == e + "\"";
    assert DropFront(q, IsQuote) == DropFront(e + "\"", IsQuote) == e + "\"";
    assert (e + "\"")[..|e|] == e;
    assert DropBack(e + "\"", IsQuote) == DropBack(e, IsQuote) == e;
  }

  lemma CleanSpaced(s: string)
    ensures CleanAll(SplitOn(" " + s, ',')) == CleanAll(SplitOn(s, ','))
  {
    var pieces := SplitOn(s, ',');
    assert (" " + s)[1..] == s;
    TrimLeading(' ', pieces[0], IsSpace);
    assert SplitOn(" " + s, ',') == [" " + pieces[0]] + pieces[1..];
    assert ([" " + pieces[0]] + pieces[1..])[1..] == pieces[1..];
  }

  lemma QuotedHasNoComma(e: string)
    requires GoodEntry(e)
    ensures ',' !in Quoted(e) && '\n' !in Quoted(e)
  {
  }

  lemma {:induction false} ItemsBack(v: seq<string>)
    requires GoodList(v)
    ensures CleanAll(SplitOn(Items(v), ',')) == v
  {
    hide Clean, Quoted, GoodEntry, SplitOn;
    if v == [] {
      CleanNothing();
    } else {
      assert GoodEntry(v[0]);
      EntryBack(v[0]);
      if |v| == 1 {
        SplitNone(Quoted(v[0]), ',');
        CleanCons(Quoted(v[0]), []);
        assert v == [v[0]];
      } else {
        ItemsBack(v[1..]);
        var rest := " " + Items(v[1..]);
        SplitFront(Quoted(v[0]), ',', rest);
        CleanSpaced(Items(v[1..]));
        CleanCons(Quoted(v[0]), SplitOn(rest, ','));
        assert v == [v[0]] + v[1..];
      }
    }
  }

  lemma CleanNothing()
    ensures CleanAll(SplitOn("", ',')) == []
  {
  }

  lemma CleanCons(x: string, rest: seq<string>)
    requires Clean(x) != ""
    ensures CleanAll([x] + rest) == [Clean(x)] + CleanAll(rest)
    ensures CleanAll([x]) == [Clean(x)]
  {
  }

  lemma EntryBack(e: string)
    requires GoodEntry(e)
    ensures Clean(Quoted(e)) == e && e != "" && ',' !in Quoted(e)
  {
    CleanQuoted(e);
    QuotedHasNoComma(e);
  }

  /** What a written list reads back as. */
  function Back(v: seq<string>): seq<string> {
    CleanAll(SplitOn(Items(v), ','))
  }

  /** Every written list reads as some list, a good one as itself. */
  lemma ListBack(v: seq<string>)
    ensures ParseList(List(v)) == Ok(Back(v))
    ensures GoodList(v) ==> Back(v) == v
  {
    if GoodList(v) {
      ItemsBack(v);
    }
    assert List(v)[1..|List(v)| - 1] == Items(v);
  }

  /** A line `key = value` sets that field. */
  lemma FieldLine(st: Parsing, key: string, value: string)
    requires key != "" && '=' !in key && key[0] !in "#[" && !IsSpace(key[0]) && !IsSpace(key[|key| - 1])
    requires value != "" && !IsSpace(value[0]) && !IsSpace(value[|value| - 1])
    ensures ParseLine(st, key + " = " + value) == SetField(st, key, value)
  {
    hide SetField, IsSpace;
    var l := key + " = " + value;
    TrimNothing(l, IsSpace);
    EqualsAfter(key + " ", " " + value);
    assert l == (key + " ") + "=" + (" " + value);
    assert l[..|key| + 1] == key + " ";
    assert l[|key| + 2..] == " " + value;
    assert IsSpace(' ') by { SpaceIsSpace(); }
    TrimLeading(' ', value, IsSpace);
    TrimNothing(value, IsSpace);
    TrimTrailing(key, ' ', IsSpace);
  }

  lemma SpaceIsSpace()
    ensures IsSpace(' ')
  {
  }

  lemma TrimTrailing(s: string, c: char, f: char -> bool)
    requires s != "" && !f(s[0]) && !f(s[|s| - 1]) && f(c)
    ensures TrimBy(s + [c], f) == s
  {
    var t := s + [c];
    assert t[..|t| - 1] == s;
    assert DropFront(t, f) == t;
    assert DropBack(t, f) == DropBack(s, f) == s;
  }

  lemma {:induction false} EqualsAfter(a: string, b: string)
    requires '=' !in a
    ensures FirstEquals(a + "=" + b) == |a|
  {
    if a != "" {
      EqualsAfter(a[1..], b);
      assert (a + "=" + b)[1..] == a[1..] + "=" + b;
    } else {
      assert ("" + "=" + b)[0] == '=';
    }
  }

  lemma ListEnds(v: seq<string>)
    ensures List(v) != "" && List(v)[0] == '[' && List(v)[|List(v)| - 1] == ']'
    ensures !IsSpace('[') && !IsSpace(']') && !IsSpace('"')
  {
  }

  lemma ListLine(st: Parsing, key: string, v: seq<string>)
    requires key != "" && '=' !in key && key[0] !in "#[" && !IsSpace(key[0]) && !IsSpace(key[|key| - 1])
    ensures ParseLine(st, key + " = " + List(v)) == SetField(st, key, List(v))
    ensures ParseList(List(v)) == Ok(Back(v))
  {
    ListEnds(v);
    ListBack(v);
    hide SetField, List;
    FieldLine(st, key, List(v));
  }

  lemma SectionLine(st: Parsing, name: string)
    requires name != "" && !IsBracket(name[0]) && !IsBracket(name[|name| - 1])
    ensures ParseLine(st, "[" + name + "]") == Ok(st.(section := name))
  {
    var l := "[" + name + "]";
    TrimNothing(l, IsSpace);
    TrimLeading('[', name + "]", IsBracket);
    assert l == "[" + (name + "]");
    TrimTrailing(name, ']', IsBracket);
  }

  lemma EmptyLine(st: Parsing)
    ensures ParseLine(st, "") == Ok(st)
  {
  }

  lemma AppLine(st: Parsing, app: string)
    requires Bare(app) && st.section == "policy"
    ensures ParseLine(st, "app = " + Quoted(app)) == Ok(st.(policy := st.policy.(app := app)))
  {
    assert !IsSpace('"');
    var v := Quoted(app);
    assert "app" + " = " + v == "app = " + v;
    FieldLine(st, "app", v);
    CleanQuoted(app);
    TrimNothing(v, IsSpace);
  }

  lemma SchemaLine(st: Parsing, n: u32)
    requires st.section == "policy"
    ensures ParseLine(st, "schema = " + Display(n)) == Ok(st.(policy := st.policy.(schema := n)))
  {
    DisplayValue(n);
    ParseDisplayed(n);
    var v := Display(n);
    assert IsDigit(v[0]) && IsDigit(v[|v| - 1]);
    hide Display, ParseU32;
    assert "schema" + " = " + v == "schema = " + v;
    FieldLine(st, "schema", v);
  }

  /** The keys neither start nor end with a space. */
  lemma KeyEnds()
    ensures forall c :: c in "rdweys" ==> !IsSpace(c)
  {
  }

  lemma ReadLine(st: Parsing, v: seq<string>)
    requires st.section == "paths"
    ensures ParseLine(st, "read = " + List(v)) == Ok(st.(policy := st.policy.(read := Back(v))))
  {
    hide List, ParseLine, ParseList, IsSpace, Back;
    KeyEnds();
    assert "read" + " = " + List(v) == "read = " + List(v);
    ListLine(st, "read", v);
  }

  lemma WriteLine(st: Parsing, v: seq<string>)
    requires st.section == "paths"
    ensures ParseLine(st, "write = " + List(v)) == Ok(st.(policy := st.policy.(write := Back(v))))
  {
    hide List, ParseLine, ParseList, IsSpace, Back;
    KeyEnds();
    assert "write" + " = " + List(v) == "write = " + List(v);
    ListLine(st, "write", v);
  }

  lemma DenyLine(st: Parsing, v: seq<string>)
    requires st.section == "paths"
    ensures ParseLine(st, "deny = " + List(v)) == Ok(st.(policy := st.policy.(deny := Back(v))))
  {
    hide List, ParseLine, ParseList, IsSpace, Back;
    KeyEnds();
    assert "deny" + " = " + List(v) == "deny = " + List(v);
    ListLine(st, "deny", v);
  }

  lemma DomainsLine(st: Parsing, v: seq<string>)
    requires st.section == "net"
    ensures ParseLine(st, "domains = " + List(v)) == Ok(st.(policy := st.policy.(domains := Back(v))))
  {
    hide List, ParseLine, ParseList, IsSpace, Back;
    KeyEnds();
    assert "domains" + " = " + List(v) == "domains = " + List(v);
    ListLine(st, "domains", v);
  }

  /** No entry holds a line break. */
  ghost predicate Unbroken(v: seq<string>) {
    forall i :: 0 <= i < |v| ==> '\n' !in v[i]
  }

  ghost predicate AllUnbroken(p: Policy) {
    Unbroken(p.read) && Unbroken(p.write) && Unbroken(p.deny) && Unbroken(p.domains)
  }

  lemma {:induction false} NoNewlineInItems(v: seq<string>)
    requires Unbroken(v)
    ensures '\n' !in Items(v)
  {
    if v != [] {
      assert '\n' !in Quoted(v[0]);
      NoNewlineInItems(v[1..]);
    }
  }

  lemma NoNewlineInLines(p: Policy)
    requires Bare(p.app) && AllUnbroken(p)
    ensures forall i :: 0 <= i < |TomlLines(p)| ==> '\n' !in TomlLines(p)[i]
  {
    hide Display, List, Quoted, Bare, Unbroken;
    assert |TomlLines(p)| == 11;
    NoNewlineInList(p.read);
    NoNewlineInList(p.write);
    NoNewlineInList(p.deny);
    NoNewlineInList(p.domains);
    NoNewlineInApp(p.app);
    NoNewlineInNumber(p.schema);
    NoNewlineCat("schema = ", Display(p.schema));
    NoNewlineCat("app = ", Quoted(p.app));
    NoNewlineCat("read = ", List(p.read));
    NoNewlineCat("write = ", List(p.write));
    NoNewlineCat("deny = ", List(p.deny));
    NoNewlineCat("domains = ", List(p.domains));
  }

  lemma NoNewlineCat(a: string, b: string)
    requires '\n' !in a && '\n' !in b
    ensures '\n' !in a + b
  {
  }

  lemma NoNewlineInList(v: seq<string>)
    requires Unbroken(v)
    ensures '\n' !in List(v)
  {
    NoNewlineInItems(v);
  }

  lemma NoNewlineInApp(app: string)
    requires Bare(app)
    ensures '\n' !in Quoted(app)
  {
  }

  lemma NoNewlineInNumber(n: nat)
    ensures '\n' !in Display(n)
  {
  }

  lemma NextLine(st: Parsing, ls: seq<string>, next: Parsing)
    requires ls != [] && ParseLine(st, ls[0]) == Ok(next)
    ensures ParseLines(st, ls) == ParseLines(next, ls[1..])
  {
  }

  lemma {:induction false} ParseAppended(st: Parsing, a: seq<string>, b: seq<string>)
    requires ParseLines(st, a).Ok?
    ensures ParseLines(st, a + b) == ParseLines(ParseLines(st, a).value, b)
    decreases |a|
  {
    hide ParseLine;
    if a == [] {
      assert a + b == b;
    } else {
      ParseAppended(ParseLine(st, a[0]).value, a[1..], b);
      assert (a + b)[1..] == a[1..] + b;
    }
  }

  lemma PolicyLinesGive(p: Policy)
    requires Bare(p.app)
    ensures ParseLines(Blank, PolicyLines(p)) == Ok(Parsing(Policy(p.schema, p.app, [], [], [], []), "policy"))
  {
    hide ParseLine, ParseLines, Display, Quoted, Bare;
    var ls := PolicyLines(p);
    var q0 := Policy(0, "", [], [], [], []);
    var q1 := q0.(schema := p.schema);
    var q2 := q1.(app := p.app);
    assert "[" + "policy" + "]" == "[policy]";
    SectionLine(Blank, "policy");
    NextLine(Blank, ls, Parsing(q0, "policy"));
    SchemaLine(Parsing(q0, "policy"), p.schema);
    NextLine(Parsing(q0, "policy"), ls[1..], Parsing(q1, "policy"));
    AppLine(Parsing(q1, "policy"), p.app);
    NextLine(Parsing(q1, "policy"), ls[1..][1..], Parsing(q2, "policy"));
    EmptyLine(Parsing(q2, "policy"));
    NextLine(Parsing(q2, "policy"), ls[1..][1..][1..], Parsing(q2, "policy"));
    NoMoreLines(Parsing(q2, "policy"));
    assert ls[1..][1..][1..][1..] == [];
  }

  lemma PathLinesGive(st: Parsing, p: Policy)
    ensures ParseLines(st, PathLines(p)) ==
              Ok(Parsing(st.policy.(read := Back(p.read), write := Back(p.write), deny := Back(p.deny)), "paths"))
  {
    hide ParseLine, ParseLines, List, Back;
    var ls := PathLines(p);
    var q0 := st.policy;
    var q1 := q0.(read := Back(p.read));
    var q2 := q1.(write := Back(p.write));
    var q3 := q2.(deny := Back(p.deny));
    assert "[" + "paths" + "]" == "[paths]";
    SectionLine(st, "paths");
    NextLine(st, ls, Parsing(q0, "paths"));
    ReadLine(Parsing(q0, "paths"), p.read);
    NextLine(Parsing(q0, "paths"), ls[1..], Parsing(q1, "paths"));
    WriteLine(Parsing(q1, "paths"), p.write);
    NextLine(Parsing(q1, "paths"), ls[1..][1..], Parsing(q2, "paths"));
    DenyLine(Parsing(q2, "paths"), p.deny);
    NextLine(Parsing(q2, "paths"), ls[1..][1..][1..], Parsing(q3, "paths"));
    EmptyLine(Parsing(q3, "paths"));
    NextLine(Parsing(q3, "paths"), ls[1..][1..][1..][1..], Parsing(q3, "paths"));
    NoMoreLines(Parsing(q3, "paths"));
    assert ls[1..][1..][1..][1..][1..] == [];
  }

  lemma NetLinesGive(st: Parsing, p: Policy)
    ensures ParseLines(st, NetLines(p) + [""]) == Ok(Parsing(st.policy.(domains := Back(p.domains)), "net"))
  {
    hide ParseLine, ParseLines, List, Back;
    var ls := NetLines(p) + [""];
    var q := st.policy.(domains := Back(p.domains));
    assert "[" + "net" + "]" == "[net]";
    SectionLine(st, "net");
    NextLine(st, ls, st.(section := "net"));
    DomainsLine(st.(section := "net"), p.domains);
    NextLine(st.(section := "net"), ls[1..], Parsing(q, "net"));
    EmptyLine(Parsing(q, "net"));
    NextLine(Parsing(q, "net"), ls[1..][1..], Parsing(q, "net"));
    NoMoreLines(Parsing(q, "net"));
    assert ls[1..][1..][1..] == [];
  }

  /** The policy with every list as it reads back. */
  function Reread(p: Policy): Policy {
    p.(read := Back(p.read), write := Back(p.write), deny := Back(p.deny), domains := Back(p.domains))
  }

  lemma GoodIsSame(p: Policy)
    requires GoodLists(p)
    ensures Reread(p) == p && AllUnbroken(p)
  {
    hide Back;
    ListBack(p.read);
    ListBack(p.write);
    ListBack(p.deny);
    ListBack(p.domains);
  }

  /** Reading back all lines collects every field. */
  lemma LinesGivePolicy(p: Policy)
    requires Bare(p.app)
    ensures ParseLines(Blank, TomlLines(p) + [""]) == Ok(Parsing(Reread(p), "net"))
  {
    hide ParseLine, ParseLines, PolicyLines, PathLines, NetLines, Bare, Back;
    var a, b, c := PolicyLines(p), PathLines(p), NetLines(p) + [""];
    var s1 := Parsing(Policy(p.schema, p.app, [], [], [], []), "policy");
    PolicyLinesGive(p);
    PathLinesGive(s1, p);
    var s2 := ParseLines(s1, b).value;
    NetLinesGive(s2, p);
    ParseAppended(Blank, a, b + c);
    ParseAppended(s1, b, c);
    assert TomlLines(p) + [""] == a + (b + c);
  }

  lemma NoMoreLines(st: Parsing)
    ensures ParseLines(st, []) == Ok(st)
  {
  }

  /** Without line breaks what was written is read, every list as it reads back; good lists are
      read as they were. */
  lemma WrittenIsRead(p: Policy)
    requires Bare(p.app) && AllUnbroken(p)
    ensures FromToml(ToToml(p)) == Finish(Reread(p))
    ensures GoodLists(p) ==> FromToml(ToToml(p)) == Finish(p)
  {
    NoNewlineInLines(p);
    hide TomlLines, ParseLines, GoodLists, Bare, Finish, Back;
    LinesBack(TomlLines(p));
    LinesGivePolicy(p);
    if GoodLists(p) {
      GoodIsSame(p);
    }
  }

  /** So without line breaks, and with a name that can be written, the file is readable if and only
      if the schema is not newer, and it is read as a policy for the same program. */
  lemma UnbrokenIsReadable(p: Policy)
    requires Bare(p.app) && AllUnbroken(p)
    ensures FromToml(ToToml(p)).Ok? <==> p.schema <= SCHEMA
    ensures p.schema <= SCHEMA ==> FromToml(ToToml(p)).value.app == p.app
  {
    WrittenIsRead(p);
    assert p.app != "";
    hide FromToml, ToToml, Back, Bare, AllUnbroken;
  }

  /** A policy survives the text form if and only if it is one the text form can carry. */
  lemma RoundTrip(p: Policy)
    ensures FromToml(ToToml(p)) == Ok(p) <==> Carried(p)
  {
    hide TomlLines, ParseLines, GoodLists, Bare;
    AcceptedIsCarried(ToToml(p));
    if Carried(p) {
      GoodIsSame(p);
      WrittenIsRead(p);
      assert p.app != "" by { BareIsNotEmpty(p.app); }
    }
  }

  lemma BareIsNotEmpty(s: string)
    requires Bare(s)
    ensures s != ""
  {
  }

  /** A newer schema is never read: not from any text, and a policy the text form could
      otherwise carry is refused for it. */
  lemma NewerSchemaRefused(p: Policy, t: string)
    requires p.schema > SCHEMA
    ensures FromToml(t).Ok? ==> FromToml(t).value.schema <= SCHEMA
    ensures Bare(p.app) && GoodLists(p) ==> FromToml(ToToml(p)) == Err(NewerSchema)
  {
    hide TomlLines, ParseLines, GoodLists, Bare;
    if Bare(p.app) && GoodLists(p) {
      GoodIsSame(p);
      WrittenIsRead(p);
    }
  }

  // ---------- a line break inside an entry ----------

  /** The lines that hold a list, in their order. */
  datatype Field = AtRead | AtWrite | AtDeny | AtDomains

  function Key(f: Field): string {
    match f
    case AtRead => "read"
    case AtWrite => "write"
    case AtDeny => "deny"
    case AtDomains => "domains"
  }

  function ListOf(p: Policy, f: Field): seq<string> {
    match f
    case AtRead => p.read
    case AtWrite => p.write
    case AtDeny => p.deny
    case AtDomains => p.domains
  }

  /** What stands in front of the list. */
  function Prefix(f: Field): string {
    match f
    case AtRead => "read = "
    case AtWrite => "write = "
    case AtDeny => "deny = "
    case AtDomains => "domains = "
  }

  function LineOf(p: Policy, f: Field): string {
    Prefix(f) + List(ListOf(p, f))
  }

  function Opening(p: Policy): seq<string> {
    PolicyLines(p) + ["[paths]"]
  }

  /** The lines before the line of a field, and after it. */
  function Before(p: Policy, f: Field): seq<string> {
    match f
    case AtRead => Opening(p)
    case AtWrite => Opening(p) + [LineOf(p, AtRead)]
    case AtDeny => Opening(p) + [LineOf(p, AtRead), LineOf(p, AtWrite)]
    case AtDomains => PolicyLines(p) + PathLines(p) + ["[net]"]
  }

  function After(p: Policy, f: Field): seq<string> {
    match f
    case AtRead => [LineOf(p, AtWrite), LineOf(p, AtDeny), ""] + NetLines(p)
    case AtWrite => [LineOf(p, AtDeny), ""] + NetLines(p)
    case AtDeny => [""] + NetLines(p)
    case AtDomains => []
  }

  lemma AroundTheLine(p: Policy, f: Field)
    ensures TomlLines(p) == Before(p, f) + ([LineOf(p, f)] + After(p, f))
  {
    hide List, PolicyLines;
  }

  /** The lists of the lines before hold no line break. */
  ghost predicate UnbrokenBefore(p: Policy, f: Field) {
    && (!f.AtRead? ==> Unbroken(p.read))
    && (f.AtDeny? || f.AtDomains? ==> Unbroken(p.write))
    && (f.AtDomains? ==> Unbroken(p.deny))
  }

  lemma NoNewlineBefore(p: Policy, f: Field)
    requires Bare(p.app) && UnbrokenBefore(p, f)
    ensures forall i :: 0 <= i < |Before(p, f)| ==> '\n' !in Before(p, f)[i]
  {
    hide List, Display, Quoted, Bare, Unbroken;
    NoNewlineInApp(p.app);
    NoNewlineInNumber(p.schema);
    NoNewlineCat("schema = ", Display(p.schema));
    NoNewlineCat("app = ", Quoted(p.app));
    if !f.AtRead? {
      NoNewlineInList(p.read);
      NoNewlineCat("read = ", List(p.read));
      if !f.AtWrite? {
        NoNewlineInList(p.write);
        NoNewlineCat("write = ", List(p.write));
        if f.AtDomains? {
          NoNewlineInList(p.deny);
          NoNewlineCat("deny = ", List(p.deny));
        }
      }
    }
  }

  function Section(f: Field): string {
    if f.AtDomains? then "net" else "paths"
  }

  lemma OneLine(st: Parsing, l: string, next: Parsing)
    requires ParseLine(st, l) == Ok(next)
    ensures ParseLines(st, [l]) == Ok(next)
  {
    hide ParseLine;
    NextLine(st, [l], next);
    assert [l][1..] == [];
  }

  lemma OpeningGives(p: Policy)
    requires Bare(p.app)
    ensures ParseLines(Blank, Before(p, AtRead)) == Ok(Parsing(Policy(p.schema, p.app, [], [], [], []), "paths"))
  {
    hide ParseLine, ParseLines, Bare, Quoted, Display;
    var s1 := Parsing(Policy(p.schema, p.app, [], [], [], []), "policy");
    PolicyLinesGive(p);
    ParseAppended(Blank, PolicyLines(p), ["[paths]"]);
    assert "[" + "paths" + "]" == "[paths]";
    SectionLine(s1, "paths");
    OneLine(s1, "[paths]", s1.(section := "paths"));
  }

  /** Before the line of a field everything parses, and leaves the field's section. */
  lemma BeforeGives(p: Policy, f: Field) returns (st: Parsing)
    requires Bare(p.app)
    ensures ParseLines(Blank, Before(p, f)) == Ok(st) && st.section == Section(f)
  {
    hide ParseLine, ParseLines, Bare, List, Back, PolicyLines, PathLines;
    var s0 := Parsing(Policy(p.schema, p.app, [], [], [], []), "paths");
    if f.AtDomains? {
      var s1 := s0.(section := "policy");
      PolicyLinesGive(p);
      PathLinesGive(s1, p);
      var s2 := ParseLines(s1, PathLines(p)).value;
      ParseAppended(Blank, PolicyLines(p), PathLines(p));
      ParseAppended(Blank, PolicyLines(p) + PathLines(p), ["[net]"]);
      assert "[" + "net" + "]" == "[net]";
      SectionLine(s2, "net");
      st := s2.(section := "net");
      OneLine(s2, "[net]", st);
    } else {
      OpeningGives(p);
      st := s0;
      if !f.AtRead? {
        st := AfterPaths(p, f, s0);
      }
    }
  }

  lemma AfterPaths(p: Policy, f: Field, s0: Parsing) returns (st: Parsing)
    requires s0.section == "paths" && (f.AtWrite? || f.AtDeny?) && ParseLines(Blank, Before(p, AtRead)) == Ok(s0)
    ensures ParseLines(Blank, Before(p, f)) == Ok(st) && st.section == "paths"
  {
    hide ParseLine, ParseLines, List, Back, PolicyLines;
    var a, x, y := Before(p, AtRead), LineOf(p, AtRead), LineOf(p, AtWrite);
    assert x == "read = " + List(p.read) && y == "write = " + List(p.write);
    ReadLine(s0, p.read);
    st := s0.(policy := s0.policy.(read := Back(p.read)));
    OneLine(s0, x, st);
    ParseAppended(Blank, a, [x]);
    if f.AtDeny? {
      WriteLine(st, p.write);
      var s1 := st.(policy := st.policy.(write := Back(p.write)));
      OneLine(st, y, s1);
      ParseAppended(Blank, a + [x], [y]);
      assert a + [x, y] == a + [x] + [y];
      st := s1;
    }
  }

  /** A line break cuts the line of a list short. Unless what is left of it ends like a list, the file cannot be
      read. */
  lemma CutListUnreadable(p: Policy, f: Field, h: string, more: string)
    requires Bare(p.app) && UnbrokenBefore(p, f)
    requires List(ListOf(p, f)) == h + "\n" + more && '\n' !in h
    requires Trim(h) != "" && Trim(h)[|Trim(h)| - 1] != ']'
    ensures FromToml(ToToml(p)) == Err(NotAList)
  {
    hide SplitOn, ParseLine, ParseLines, Bare, Before, After, IsSpace, Trim, List, Prefix;
    var a, x := Before(p, f), Prefix(f) + h;
    var st := BeforeGives(p, f);
    var tail := After(p, f);
    var rest := more + "\n" + Unlines(tail);
    NoNewlineBefore(p, f);
    AroundTheLine(p, f);
    UnlinesAppend(a, [LineOf(p, f)] + tail);
    CutLine(Prefix(f), h, more, ListOf(p, f), tail);
    PrefixNoNewline(f, h);
    LinesThenText(a, x + "\n" + rest);
    SplitFront(x, '\n', rest);
    ParseAppended(Blank, a, [x] + SplitOn(rest, '\n'));
    CutListLine(st, f, h, ListOf(p, f), more);
    FailedLine(st, [x] + SplitOn(rest, '\n'), NotAList);
  }

  lemma PrefixNoNewline(f: Field, h: string)
    requires '\n' !in h
    ensures '\n' !in Prefix(f) + h
  {
  }

  lemma CutLine(front: string, h: string, more: string, v: seq<string>, tail: seq<string>)
    requires List(v) == h + "\n" + more
    ensures Unlines([front + List(v)] + tail) == front + h + "\n" + (more + "\n" + Unlines(tail))
  {
    hide List;
    var l := front + List(v);
    assert ([l] + tail)[1..] == tail;
    assert Unlines([l] + tail) == l + "\n" + Unlines(tail);
  }

  /** One such policy: a path with a line break in it. */
  lemma BrokenPathUnreadable()
    ensures FromToml(ToToml(Policy(SCHEMA, "a", ["/x\ny"], [], [], []))) == Err(NotAList)
  {
    hide FromToml, ToToml;
    var p := Policy(SCHEMA, "a", ["/x\ny"], [], [], []);
    var h, more := "[\"/x", "y\"]";
    assert List(p.read) == h + "\n" + more;
    TrimNothing(h, IsSpace);
    CutListUnreadable(p, AtRead, h, more);
  }

  lemma {:induction false} DropBackAfter(a: string, v: string, f: char -> bool)
    requires DropBack(v, f) != ""
    ensures DropBack(a + v, f) == a + DropBack(v, f)
    decreases |v|
  {
    if f(v[|v| - 1]) {
      DropBackAfter(a, v[..|v| - 1], f);
      assert (a + v)[..|a + v| - 1] == a + v[..|v| - 1];
    }
  }

  /** A line `key = value` sets that field, whatever spaces follow the value. */
  lemma TrimmedFieldLine(st: Parsing, key: string, value: string)
    requires key != "" && '=' !in key && key[0] !in "#[" && !IsSpace(key[0]) && !IsSpace(key[|key| - 1])
    requires value != "" && !IsSpace(value[0])
    ensures Trim(value) != "" && Trim(value)[0] == value[0]
    ensures ParseLine(st, key + " = " + value) == SetField(st, key, Trim(value))
  {
    hide SetField, IsSpace;
    var raw, v := key + " = " + value, Trim(value);
    assert DropFront(value, IsSpace) == value && DropFront(raw, IsSpace) == raw;
    KeepsFirst(value, IsSpace);
    DropBackAfter(key + " = ", value, IsSpace);
    assert Trim(raw) == key + " = " + v;
    TrimOk(value, IsSpace);
    FieldLine(st, key, v);
    TrimNothing(key + " = " + v, IsSpace);
  }

  lemma {:induction false} KeepsFirst(s: string, f: char -> bool)
    requires s != "" && !f(s[0])
    ensures DropBack(s, f) != "" && DropBack(s, f)[0] == s[0]
    decreases |s|
  {
    if f(s[|s| - 1]) {
      KeepsFirst(s[..|s| - 1], f);
    }
  }

  lemma CutListLine(st: Parsing, f: Field, h: string, v: seq<string>, more: string)
    requires st.section == Section(f) && List(v) == h + "\n" + more
    requires Trim(h) != "" && Trim(h)[|Trim(h)| - 1] != ']'
    ensures ParseLine(st, Prefix(f) + h) == Err(NotAList)
  {
    CutListBegins(h, v, more);
    KeyIsPlain(f);
    hide IsSpace, ParseLine, List, Trim, Prefix, Key, SetField;
    TrimmedFieldLine(st, Key(f), h);
    CutListRefused(st, f, Trim(h));
  }

  lemma KeyIsPlain(f: Field)
    ensures Prefix(f) == Key(f) + " = "
    ensures Key(f) != "" && '=' !in Key(f) && Key(f)[0] !in "#["
    ensures !IsSpace(Key(f)[0]) && !IsSpace(Key(f)[|Key(f)| - 1])
  {
  }

  lemma CutListRefused(st: Parsing, f: Field, value: string)
    requires st.section == Section(f) && value != "" && value[|value| - 1] != ']'
    ensures SetField(st, Key(f), value) == Err(NotAList)
  {
  }

  lemma CutListBegins(h: string, v: seq<string>, more: string)
    requires List(v) == h + "\n" + more && Trim(h) != ""
    ensures h != "" && h[0] == '[' && !IsSpace(h[0])
  {
    hide List, Trim;
    ListEnds(v);
    assert h != "" by { TrimEmpty(); }
    assert h[0] == List(v)[0];
  }

  lemma TrimEmpty()
    ensures Trim("") == ""
  {
  }

  // ---------- an entry that reads as two lines ----------

  /** An entry that ends its own list and begins another line. */
  function TwoLines(a: string, b: string): string {
    a + "\"]\nread = [\"" + b
  }

  /** Written into the write list it reads back as one entry of each list. */
  lemma TwoLinesReadBack(app: string, a: string, b: string)
    requires Bare(app) && GoodEntry(a) && GoodEntry(b)
    ensures FromToml(ToToml(Policy(SCHEMA, app, [], [TwoLines(a, b)], [], [])))
            == Ok(Policy(SCHEMA, app, [b], [a], [], []))
  {
    hide SplitOn, ParseLine, ParseLines, Bare, GoodEntry, Before, NetLines, List;
    var p := Policy(SCHEMA, app, [], [TwoLines(a, b)], [], []);
    var x, y := "write = " + List([a]), "read = " + List([b]);
    var pre, tail := Before(p, AtWrite), After(p, AtWrite);
    AroundTheLine(p, AtWrite);
    UnlinesAppend(pre, [LineOf(p, AtWrite)] + tail);
    TwoLinesText(p, a, b, tail);
    UnlinesAppend(pre, [x, y] + tail);
    var ls := pre + ([x, y] + tail);
    TwoLinesUnbroken(p, a, b);
    LinesBack(ls);
    TwoLinesGive(p, a, b);
    assert ls + [""] == pre + ([x, y] + tail + [""]);
    BareIsNotEmpty(app);
  }

  lemma TwoLinesText(p: Policy, a: string, b: string, tail: seq<string>)
    requires p.write == [TwoLines(a, b)]
    ensures Unlines([LineOf(p, AtWrite)] + tail) == Unlines(["write = " + List([a]), "read = " + List([b])] + tail)
  {
    EntryText(a, b);
    hide List, TwoLines;
    var l, x, y := LineOf(p, AtWrite), "write = " + List([a]), "read = " + List([b]);
    assert l == x + "\n" + y;
    assert ([l] + tail)[1..] == tail && ([x, y] + tail)[1..] == [y] + tail && ([y] + tail)[1..] == tail;
    assert Unlines([y] + tail) == y + "\n" + Unlines(tail);
    assert x + "\n" + (y + "\n" + Unlines(tail)) == x + "\n" + y + "\n" + Unlines(tail);
  }

  lemma EntryText(a: string, b: string)
    ensures List([TwoLines(a, b)]) == List([a]) + "\n" + ("read = " + List([b]))
  {
    assert List([a]) == "[\"" + a + "\"]" && List([b]) == "[\"" + b + "\"]";
    assert "\"]\nread = [\"" == "\"]" + "\n" + "read = " + "[\"";
  }

  lemma TwoLinesUnbroken(p: Policy, a: string, b: string)
    requires Bare(p.app) && GoodEntry(a) && GoodEntry(b) && p.read == p.deny == p.domains == []
    ensures var ls := Before(p, AtWrite) + (["write = " + List([a]), "read = " + List([b])] + After(p, AtWrite));
            forall i :: 0 <= i < |ls| ==> '\n' !in ls[i]
  {
    NoNewlineBefore(p, AtWrite);
    hide Before, Bare, List;
    assert Unbroken([a]) && Unbroken([b]) && Unbroken([]);
    hide Unbroken, GoodEntry;
    NoNewlineInList([a]);
    NoNewlineInList([b]);
    NoNewlineInList([]);
  }

  lemma TwoLinesGive(p: Policy, a: string, b: string)
    requires Bare(p.app) && GoodEntry(a) && GoodEntry(b) && p.read == p.deny == p.domains == []
    ensures ParseLines(Blank, Before(p, AtWrite) +
                              (["write = " + List([a]), "read = " + List([b])] + After(p, AtWrite) + [""]))
            == Ok(Parsing(Policy(p.schema, p.app, [b], [a], [], []), "net"))
  {
    hide ParseLine, ParseLines, Bare, List, Back, PolicyLines, NetLines, GoodEntry;
    var x, y, d := "write = " + List([a]), "read = " + List([b]), "deny = " + List([]);
    var s0 := Parsing(Policy(p.schema, p.app, [], [], [], []), "paths");
    var s1, s2 := s0.(policy := s0.policy.(write := [a])), s0.(policy := s0.policy.(write := [a], read := [b]));
    GoodSingles(a, b);
    OpeningGives(p);
    ReadLine(s0, []);
    assert LineOf(p, AtRead) == "read = " + List([]) && LineOf(p, AtDeny) == d;
    OneLine(s0, LineOf(p, AtRead), s0);
    ParseAppended(Blank, Before(p, AtRead), [LineOf(p, AtRead)]);
    var rest := [x, y, d, ""] + (NetLines(p) + [""]);
    ParseAppended(Blank, Before(p, AtWrite), rest);
    assert [x, y] + After(p, AtWrite) + [""] == rest;
    WriteLine(s0, [a]);
    NextLine(s0, rest, s1);
    ReadLine(s1, [b]);
    NextLine(s1, rest[1..], s2);
    DenyLine(s2, []);
    NextLine(s2, rest[1..][1..], s2);
    EmptyLine(s2);
    NextLine(s2, rest[1..][1..][1..], s2);
    assert rest[1..][1..][1..][1..] == NetLines(p) + [""];
    NetLinesGive(s2, p);
  }

  lemma GoodSingles(a: string, b: string)
    requires GoodEntry(a) && GoodEntry(b)
    ensures Back([a]) == [a] && Back([b]) == [b] && Back([]) == []
  {
    hide Back;
    ListBack([a]);
    ListBack([b]);
    ListBack([]);
  }

  lemma FailedLine(st: Parsing, ls: seq<string>, e: Error)
    requires ls != [] && ParseLine(st, ls[0]) == Err(e)
    ensures ParseLines(st, ls) == Err(e)
  {
  }

  /** Reading any text and writing it out again is stable from then on. */
  lemma RewriteIsStable(t: string)
    ensures FromToml(t).Ok? ==> FromToml(ToToml(FromToml(t).value)) == FromToml(t)
  {
    hide TomlLines, ParseLines, GoodLists, Bare, FromToml, ToToml;
    AcceptedIsCarried(t);
    if FromToml(t).Ok? {
      RoundTrip(FromToml(t).value);
    }
  }
}

/** The gate in the syscall path: the policy in force, the learning session, the last
    proposal, and the installed policy files. */
module PolicyGate {
  import opened Common
  import opened Strings
  import opened Policies
  import opened PolicyText

  datatype Learning = Learning(app: string, wants: seq<Want>)

  datatype Gate = Gate(active: Option<Policy>, learn: Option<Learning>, proposal: Option<(Policy, Policy)>,
                       files: map<string, string>)

  /** The program's name: what follows the last slash. */
  function KeyOf(argv0: string): string {
    var pieces := SplitOn(argv0, '/');
    pieces[|pieces| - 1]
  }

  /** Of a path the name is the last part, and a name without a slash is its own. */
  lemma NameOfAProgram(dir: string, name: string)
    requires '/' !in name
    ensures KeyOf(name) == name && KeyOf(dir + "/" + name) == name
  {
    SplitAppend(dir, name, '/');
    SplitNone(name, '/');
  }

  function FileOf(app: string): string {
    "/etc/euroapps/" + app + ".policy.toml"
  }

  function Empty(app: string): Policy {
    Policy(SCHEMA, app, [], [], [], [])
  }

  function Load(files: map<string, string>, app: string): Option<Policy> {
    if FileOf(app) !in files then None
    else match FromToml(files[FileOf(app)])
      case Ok(p) => Some(p)
      case Err(_) => None
  }

  // ---------- what each call does ----------

  ghost function Record(g: Gate, app: string, w: Want): Gate {
    if g.learn.Some? && g.learn.value.app == app && w !in g.learn.value.wants
    then g.(learn := Some(Learning(app, g.learn.value.wants + [w]))) else g
  }

  ghost function CheckPath(g: Gate, argv0: string, path: string, write: bool): (Gate, Option<bool>) {
    if g.active.None? || g.active.value.app != KeyOf(argv0) then (g, None)
    else
      var p := g.active.value;
      var ok := Allows(p, path, write);
      (if ok then g else Record(g, p.app, if write then Write(path) else Read(path)), Some(ok))
  }

  ghost function CheckDns(g: Gate, argv0: string, name: string): (Gate, Option<bool>) {
    if g.active.None? || g.active.value.app != KeyOf(argv0) then (g, None)
    else
      var p := g.active.value;
      var ok := Resolves(p, name);
      (if ok then g else Record(g, p.app, Domain(Query(name))), Some(ok))
  }

  ghost function LearnStart(g: Gate, app: string): Gate {
    g.(learn := Some(Learning(app, [])))
  }

  ghost function BaseFor(g: Gate, app: string): Policy {
    match Load(g.files, app)
    case Some(p) => p
    case None => Empty(app)
  }

  ghost function LearnFinish(g: Gate): (Gate, Option<(Policy, Policy)>) {
    if g.learn.None? then (g, None)
    else
      var l := g.learn.value;
      var base := BaseFor(g, l.app);
      var result := Some((base, Proposed(base, l.wants)));
      (g.(learn := None, proposal := result), result)
  }

  /** `stored` says whether the file system took the file. */
  ghost function Approve(g: Gate, p: Policy, owner: bool, stored: bool): (Gate, bool) {
    if owner && stored then (g.(files := g.files[FileOf(p.app) := ToToml(p)]), true) else (g, false)
  }

  ghost function Activate(g: Gate, argv0: string): (Gate, Option<Policy>) {
    var app := KeyOf(argv0);
    var learning := g.learn.Some? && g.learn.value.app == app;
    var p := match Load(g.files, app)
             case Some(q) => Some(q)
             case None => if learning then Some(Empty(app)) else None;
    (g.(active := p), p)
  }

  // ---------- every run ----------

  datatype Event =
    | Path(argv0: string, path: string, write: bool)
    | Dns(argv0: string, name: string)
    | Start(app: string)
    | Finish_
    | Install(policy: Policy, owner: bool, stored: bool)
    | Launch(argv0: string)
    | Exit

  ghost function Step(g: Gate, e: Event): Gate {
    match e
    case Path(argv0, path, write) => CheckPath(g, argv0, path, write).0
    case Dns(argv0, name) => CheckDns(g, argv0, name).0
    case Start(app) => LearnStart(g, app)
    case Finish_ => LearnFinish(g).0
    case Install(p, owner, stored) => Approve(g, p, owner, stored).0
    case Launch(argv0) => Activate(g, argv0).0
    case Exit => g.(active := None)
  }

  ghost predicate WantsOk(wants: seq<Want>) {
    && (forall i, j :: 0 <= i < j < |wants| ==> wants[i] != wants[j])
    && (forall i :: 0 <= i < |wants| && wants[i].Domain? ==> Query(wants[i].name) == wants[i].name)
  }

  /** Wants are recorded once each and names without trailing dots; the proposal on file
      extends its base; what is in force came out of a file or is a program's empty policy. */
  ghost predicate Inv(g: Gate) {
    && (g.learn.Some? ==> WantsOk(g.learn.value.wants))
    && (g.proposal.Some? ==> Extends(g.proposal.value.0, g.proposal.value.1))
    && (g.active.Some? ==> Carried(g.active.value) || g.active.value == Empty(g.active.value.app))
  }

  /** A stored policy that can be read can be carried. */
  lemma LoadedIsCarried(files: map<string, string>, app: string)
    ensures Load(files, app).Some? ==> Carried(Load(files, app).value)
  {
    hide FromToml, Carried;
    if FileOf(app) in files {
      AcceptedIsCarried(files[FileOf(app)]);
    }
  }

  lemma FilesApart(a: string, b: string)
    requires FileOf(a) == FileOf(b)
    ensures a == b
  {
    var pre, post := "/etc/euroapps/", ".policy.toml";
    assert a == FileOf(a)[|pre|..|FileOf(a)| - |post|];
    assert b == FileOf(b)[|pre|..|FileOf(b)| - |post|];
  }

  lemma {:induction false} DotsGone(s: string)
    ensures Query(Query(s)) == Query(s)
  {
    DropBackOk(s, IsDot);
  }

  lemma StepKeeps(g: Gate, e: Event)
    requires Inv(g)
    ensures Inv(Step(g, e))
  {
    hide Allows, Resolves, Query, KeyOf, Proposed, Load, ToToml, Carried;
    if e.Dns? {
      DotsGone(e.name);
    }
    if e.Launch? {
      LoadedIsCarried(g.files, KeyOf(e.argv0));
    }
    if e.Finish_? && g.learn.Some? {
      ProposalExtends(BaseFor(g, g.learn.value.app), g.learn.value.wants);
    }
  }

  ghost function Run(g: Gate, es: seq<Event>): Gate
    decreases |es|
  {
    if es == [] then g else Run(Step(g, es[0]), es[1..])
  }

  lemma {:induction false} RunKeeps(g: Gate, es: seq<Event>)
    requires Inv(g)
    ensures Inv(Run(g, es))
    decreases |es|
  {
    hide Inv, Step;
    if es != [] {
      StepKeeps(g, es[0]);
      RunKeeps(Step(g, es[0]), es[1..]);
    }
  }

  /** Whatever happened before, no path under a deny entry of the policy in force is granted; and that
      policy stays in force until the next launch or exit. */
  lemma {:induction false} NeverGrantsDenied(g: Gate, es: seq<Event>, argv0: string, path: string, write: bool,
                                             d: string)
    requires Under(path, d)
    ensures var h := Run(g, es);
            h.active.Some? && (d in HARD_DENY || d in h.active.value.deny) ==>
              CheckPath(h, argv0, path, write).1 != Some(true)
    ensures (forall i :: 0 <= i < |es| ==> !es[i].Launch? && !es[i].Exit?) ==> Run(g, es).active == g.active
    decreases |es|
  {
    var h := Run(g, es);
    if h.active.Some? && (d in HARD_DENY || d in h.active.value.deny) {
      DeniedIsRefused(h.active.value, d, path, write);
    }
    hide Allows, KeyOf, Under, Resolves, Load, Proposed, ToToml;
    if es != [] {
      NeverGrantsDenied(Step(g, es[0]), es[1..], argv0, path, write, d);
    }
  }

  /** Only approvals by the owner change what is stored, and each only its own program's file; so whatever else is
      done, the same policy is loaded. */
  lemma {:induction false} OnlyTheOwner(g: Gate, es: seq<Event>, app: string)
    requires forall i :: 0 <= i < |es| && es[i].Install? && es[i].owner && es[i].stored ==> es[i].policy.app != app
    ensures Load(Run(g, es).files, app) == Load(g.files, app)
    decreases |es|
  {
    if es != [] {
      var h := Step(g, es[0]);
      OnlyTheOwner(h, es[1..], app);
      OthersLoadTheSame(g, es[0], app);
    }
  }

  lemma OthersLoadTheSame(g: Gate, e: Event, app: string)
    requires e.Install? && e.owner && e.stored ==> e.policy.app != app
    ensures Load(Step(g, e).files, app) == Load(g.files, app)
  {
    hide FromToml, ToToml, FileOf, Allows, Resolves, KeyOf, Proposed;
    if e.Install? && FileOf(e.policy.app) == FileOf(app) {
      FilesApart(e.policy.app, app);
    }
  }

  // ---------- from refusal to approval and back ----------

  /** The text of a want, if it can enter a policy at all. */
  ghost predicate Carriable(w: Want) {
    match w
    case Read(x) => UnderAny(x, HARD_DENY) || GoodEntry(x)
    case Write(x) => UnderAny(x, HARD_DENY) || GoodEntry(x)
    case Domain(d) => GoodEntry(d)
  }

  lemma AddCarriable(p: Policy, w: Want)
    requires GoodLists(p) && Carriable(w)
    ensures GoodLists(AddWant(p, w))
  {
  }

  lemma {:induction false} CarriableWantsGiveGoodLists(p: Policy, wants: seq<Want>)
    requires GoodLists(p) && forall i :: 0 <= i < |wants| ==> Carriable(wants[i])
    ensures GoodLists(Proposed(p, wants))
    decreases |wants|
  {
    hide GoodLists, Carriable;
    if wants != [] {
      assert Carriable(wants[0]);
      AddCarriable(p, wants[0]);
      CarriableWantsGiveGoodLists(AddWant(p, wants[0]), wants[1..]);
    }
  }

  /** A proposal from a carried base can be carried if and only if every want can. */
  lemma ProposalCarried(base: Policy, wants: seq<Want>)
    requires Carried(base)
    ensures Carried(Proposed(base, wants)) <==> forall i :: 0 <= i < |wants| ==> Carriable(wants[i])
  {
    var p := Proposed(base, wants);
    ProposalExtends(base, wants);
    hide Proposed, UnderAny, GoodEntry;
    if Carried(p) {
      forall i | 0 <= i < |wants|
        ensures Carriable(wants[i])
      {
        EveryWantServed(base, wants, i);
      }
    }
    if forall i :: 0 <= i < |wants| ==> Carriable(wants[i]) {
      CarriableWantsGiveGoodLists(base, wants);
    }
  }

  lemma BaseCarried(g: Gate, app: string)
    ensures Carried(BaseFor(g, app)) <==> Bare(BaseFor(g, app).app)
  {
    hide Load, Bare;
    LoadedIsCarried(g.files, app);
  }

  /** Approving the learned proposal and launching the program it is for puts exactly that
      proposal in force if and only if the program's name and every want recorded can be
      written out. Launching another program finds what was stored for that one before. */
  lemma ApprovedIsInForce(g: Gate, argv0: string)
    requires g.learn.Some?
    ensures var (g1, r) := LearnFinish(g);
            r.Some? &&
            var (base, prop) := r.value;
            var (g2, ok) := Approve(g1, prop, true, true);
            ok && (Activate(g2, argv0).1 == Some(prop) <==>
                   if base.app == KeyOf(argv0) then
                     Bare(base.app) && forall i :: 0 <= i < |g.learn.value.wants| ==> Carriable(g.learn.value.wants[i])
                   else Load(g.files, KeyOf(argv0)) == Some(prop))
  {
    var l := g.learn.value;
    var base := BaseFor(g, l.app);
    var prop := Proposed(base, l.wants);
    BaseCarried(g, l.app);
    ProposalExtends(base, l.wants);
    RoundTrip(prop);
    if base.app == KeyOf(argv0) {
      if Bare(base.app) {
        ProposalCarried(base, l.wants);
      }
      hide Proposed, GoodLists, Carriable, FromToml, ToToml, KeyOf, FileOf, Bare;
      InForceIsReadBack(LearnFinish(g).0, prop, argv0);
    } else {
      if FileOf(prop.app) == FileOf(KeyOf(argv0)) {
        FilesApart(prop.app, KeyOf(argv0));
      }
    }
  }

  ghost predicate LearningFor(g: Gate, app: string) {
    g.learn.Some? && g.learn.value.app == app
  }

  /** What is in force after approve and launch is what the text reads back as; when it cannot be
      read, nothing, or the empty policy while the program is being learned. */
  lemma InForceIsReadBack(g: Gate, p: Policy, argv0: string)
    requires p.app == KeyOf(argv0)
    ensures Activate(Approve(g, p, true, true).0, argv0).1 ==
              match FromToml(ToToml(p))
              case Ok(q) => Some(q)
              case Err(_) => if LearningFor(g, p.app) then Some(Empty(p.app)) else None
  {
    hide FromToml, ToToml, KeyOf, FileOf;
  }

  /** After approve and launch the gate answers for the program if and only if the stored text reads back
      as a policy for that program, or cannot be read while the program is being learned. It answers
      whenever the policy has a name that can be written, no line break in an entry and no newer schema;
      and as the policy itself when that can be carried. */
  lemma GatedWhenReadable(g: Gate, p: Policy, argv0: string, path: string, write: bool)
    requires p.app == KeyOf(argv0)
    ensures var h := Activate(Approve(g, p, true, true).0, argv0).0;
            && (CheckPath(h, argv0, path, write).1.Some? <==>
                  match FromToml(ToToml(p))
                  case Ok(q) => q.app == p.app
                  case Err(_) => LearningFor(g, p.app))
            && (Bare(p.app) && AllUnbroken(p) && p.schema <= SCHEMA ==> CheckPath(h, argv0, path, write).1.Some?)
            && (Carried(p) ==> CheckPath(h, argv0, path, write).1 == Some(Allows(p, path, write)))
  {
    if Bare(p.app) && AllUnbroken(p) {
      UnbrokenIsReadable(p);
    }
    hide FromToml, ToToml, KeyOf, FileOf, Carried, Allows, Bare, AllUnbroken;
    InForceIsReadBack(g, p, argv0);
    RoundTrip(p);
  }

  /** So an approved list cut short by a line break, where what is left does not end like a list, leaves the
      program without a policy: the gate answers for no path at all, a hard-denied one included. */
  lemma CutListLeavesNoPolicy(g: Gate, p: Policy, f: Field, argv0: string, h: string, more: string,
                              path: string, write: bool)
    requires p.app == KeyOf(argv0) && !LearningFor(g, p.app) && Bare(p.app) && UnbrokenBefore(p, f)
    requires List(ListOf(p, f)) == h + "\n" + more && '\n' !in h
    requires Trim(h) != "" && Trim(h)[|Trim(h)| - 1] != ']'
    ensures CheckPath(Activate(Approve(g, p, true, true).0, argv0).0, argv0, path, write).1.None?
  {
    hide FromToml, ToToml, KeyOf, FileOf, Bare, Trim, List, ListOf;
    hide Allows, Activate, Approve, CheckPath, UnbrokenBefore;
    CutListUnreadable(p, f, h, more);
    GatedWhenReadable(g, p, argv0, path, write);
  }

  /** The gate after a session is ended, its proposal approved, and the program launched. */
  ghost function LearnApproveLaunch(g: Gate, argv0: string): Gate
    requires g.learn.Some?
  {
    var (g1, r) := LearnFinish(g);
    Activate(Approve(g1, r.value.1, true, true).0, argv0).0
  }

  /** When the program's name and every want can be written out, what the gate then grants beyond the
      program's base policy lies under a recorded want, a name it resolves in a recorded domain, and nothing
      hard-denied is granted. */
  lemma GrantsOnlyWants(g: Gate, argv0: string, path: string, write: bool, name: string)
    requires g.learn.Some? && BaseFor(g, g.learn.value.app).app == KeyOf(argv0) && Bare(KeyOf(argv0))
    requires forall i :: 0 <= i < |g.learn.value.wants| ==> Carriable(g.learn.value.wants[i])
    ensures var base, wants, h := BaseFor(g, g.learn.value.app), g.learn.value.wants, LearnApproveLaunch(g, argv0);
            && h.active == Some(Proposed(base, wants))
            && (CheckPath(h, argv0, path, write).1 == Some(true) ==>
                  !UnderAny(path, HARD_DENY) && (Allows(base, path, write) || UnderAWant(path, wants, write)))
            && (CheckDns(h, argv0, name).1 == Some(true) ==>
                  Resolves(base, name) || exists d :: Domain(d) in wants && InDomain(Query(name), d))
            && (forall d :: d in base.deny && Under(path, d) ==> CheckPath(h, argv0, path, write).1 != Some(true))
  {
    ApprovedIsInForce(g, argv0);
    hide Under;
    hide Proposed, Allows, Resolves, UnderAny, KeyOf, Bare, Carriable, Load, ToToml, FileOf;
    hide InDomain, Query, UnderAWant;
    var base, wants := BaseFor(g, g.learn.value.app), g.learn.value.wants;
    ProposalIsMinimal(base, wants, path, write);
    ProposalExtends(base, wants);
    forall d | d in base.deny && Under(path, d)
      ensures !Allows(Proposed(base, wants), path, write)
    {
      DeniedIsRefused(Proposed(base, wants), d, path, write);
    }
    if Resolves(Proposed(base, wants), name) && !Resolves(base, name) {
      ProposalResolvesOnlyWants(base, wants, name);
    }
  }

  /** A want that cannot be written out: the write path /a, the end of its line, and a read line for /. */
  ghost function UnwritableWant(): string {
    TwoLines("/a", "/")
  }

  /** One session with that want: the proposal refuses to read /home/x, and after approve and launch the
      gate grants it. */
  lemma GrantsWhatWasRefused()
    ensures var w := UnwritableWant();
            var g := Gate(None, Some(Learning("a", [Write(w)])), None, map[]);
            && !Carriable(Write(w))
            && LearnFinish(g).1 == Some((Empty("a"), Proposed(Empty("a"), [Write(w)])))
            && !Allows(Proposed(Empty("a"), [Write(w)]), "/home/x", false)
            && CheckPath(LearnApproveLaunch(g, "a"), "a", "/home/x", false).1 == Some(true)
  {
    var w := UnwritableWant();
    var prop, read := Policy(SCHEMA, "a", [], [w], [], []), Policy(SCHEMA, "a", ["/"], ["/a"], [], []);
    UnwritableFacts();
    assert Proposed(Empty("a"), [Write(w)]) == prop by { ProposedOne(w); }
    KeyOfA();
    ReadbackAllows();
    TwoLinesReadBack("a", "/a", "/");
    hide Proposed, Allows, KeyOf, FromToml, ToToml, TwoLines, Carriable, FileOf;
    var g := Gate(None, Some(Learning("a", [Write(w)])), None, map[]);
    InForceIsReadBack(LearnFinish(g).0, prop, "a");
  }

  lemma UnwritableFacts()
    ensures var w := UnwritableWant(); !Carriable(Write(w)) && !UnderAny(w, HARD_DENY)
  {
    var w := UnwritableWant();
    assert w[4] == '\n';
    assert w[1] == 'a';
    forall i | 0 <= i < |HARD_DENY|
      ensures !Under(w, HARD_DENY[i])
    {
      assert HARD_DENY[i][1] == 'e' && |HARD_DENY[i]| > 1 && HARD_DENY[i][|HARD_DENY[i]| - 1] != '/';
    }
  }

  lemma ProposedOne(w: string)
    requires !UnderAny(w, HARD_DENY)
    ensures Proposed(Empty("a"), [Write(w)]) == Policy(SCHEMA, "a", [], [w], [], [])
  {
    hide UnderAny;
    assert [Write(w)][1..] == [];
    assert AddWant(Empty("a"), Write(w)) == Policy(SCHEMA, "a", [], [w], [], []);
  }

  lemma KeyOfA()
    ensures KeyOf("a") == "a"
  {
    SplitNone("a", '/');
  }

  lemma ReadbackAllows()
    ensures Allows(Policy(SCHEMA, "a", ["/"], ["/a"], [], []), "/home/x", false)
    ensures !Allows(Policy(SCHEMA, "a", [], [UnwritableWant()], [], []), "/home/x", false)
  {
    var x := "/home/x";
    assert x[0] == '/' && x[1] == 'h' && x[|x| - 1] == 'x';
    assert Under(x, "/");
    assert ["/"][0] == "/";
    NotHardDenied(x);
    NotBaseRead(x);
    var w := UnwritableWant();
    assert w[1] == 'a';
    assert !Under(x, w);
  }

  lemma NotHardDenied(x: string)
    requires |x| > 1 && x[1] == 'h'
    ensures !UnderAny(x, HARD_DENY)
  {
    forall i | 0 <= i < |HARD_DENY|
      ensures !Under(x, HARD_DENY[i])
    {
      assert |HARD_DENY[i]| > 1 && HARD_DENY[i][1] == 'e' && HARD_DENY[i][|HARD_DENY[i]| - 1] != '/';
    }
  }

  lemma NotBaseRead(x: string)
    requires |x| > 2 && x[1] == 'h'
    ensures !UnderAny(x, BASE_READ)
  {
    forall i | 0 <= i < |BASE_READ|
      ensures !Under(x, BASE_READ[i])
    {
      assert |BASE_READ[i]| > 2 && BASE_READ[i][1] != 'h';
    }
  }

  /** Then every refusal that was recorded, and is not denied for good, is granted. */
  lemma LearnedIsGranted(g: Gate, base: Policy, wants: seq<Want>, argv0: string, i: nat)
    requires g.active == Some(Proposed(base, wants)) && base.app == KeyOf(argv0)
    requires WantsOk(wants) && i < |wants|
    ensures match wants[i]
            case Read(x) =>
              !UnderAny(x, HARD_DENY) && !UnderAny(x, base.deny) ==> CheckPath(g, argv0, x, false) == (g, Some(true))
            case Write(x) =>
              !UnderAny(x, HARD_DENY) && !UnderAny(x, base.deny) ==> CheckPath(g, argv0, x, true) == (g, Some(true))
            case Domain(d) => CheckDns(g, argv0, d) == (g, Some(true))
  {
    ProposalIsSound(base, wants, i);
    ProposalExtends(base, wants);
    hide Proposed, Allows, Resolves, UnderAny, KeyOf;
  }

  /** An approved path with a comma reads back as the two halves. */
  lemma CommaSplitsEntry(a: string, b: string)
    requires GoodEntry(a) && GoodEntry(b) && !IsSpace(a[|a| - 1]) && !IsSpace(b[0])
    ensures ParseList(List([a + "," + b])) == Ok([a, b])
  {
    hide Clean, IsSpace, SplitOn;
    var q := Quoted(a + "," + b);
    var x, y := "\"" + a, b + "\"";
    var v := List([a + "," + b]);
    assert v == "[" + q + "]";
    assert v[1..|v| - 1] == q;
    assert q == x + "," + y;
    SplitFront(x, ',', y);
    SplitNone(y, ',');
    assert SplitOn(q, ',') == [x] + [y];
    HalfQuoted(a, b);
    CleanCons(x, [y]);
    CleanCons(y, []);
    assert CleanAll([x] + [y]) == [a] + [b] == [a, b];
  }

  /** So what is in force after approving it is not what was approved. */
  lemma CommaIsNotCarried(p: Policy, i: nat)
    requires i < |p.write| && ',' in p.write[i]
    ensures FromToml(ToToml(p)) != Ok(p)
  {
    assert !GoodEntry(p.write[i]);
    RoundTrip(p);
    hide FromToml, ToToml;
  }

  lemma HalfQuoted(a: string, b: string)
    requires Bare(a) && Bare(b) && !IsSpace(a[|a| - 1]) && !IsSpace(b[0])
    ensures Clean("\"" + a) == a && Clean(b + "\"") == b
  {
    TrimNothing("\"" + a, IsSpace);
    TrimLeading('"', a, IsQuote);
    TrimNothing(a, IsQuote);
    TrimNothing(b + "\"", IsSpace);
    TrimTrailing(b, '"', IsQuote);
  }

  // ---------- the gate as the kernel keeps it ----------

  class Gatekeeper {
    var active: Option<Policy>
    var learn: Option<Learning>
    var proposal: Option<(Policy, Policy)>
    var files: map<string, string>

    ghost function Abs(): Gate
      reads this
    {
      Gate(active, learn, proposal, files)
    }

    ghost predicate Valid()
      reads this
    {
      Inv(Abs())
    }

    constructor (files: map<string, string>)
      ensures Valid() && Abs() == Gate(None, None, None, files)
    {
      active, learn, proposal, this.files := None, None, None, files;
    }

    /** Keep a refusal of the program being learned; what was kept before stays in front. */
    method RecordWant(app: string, w: Want)
      requires Valid() && (w.Domain? ==> Query(w.name) == w.name)
      modifies this`learn
      ensures Valid() && Abs() == Record(old(Abs()), app, w)
      ensures LearningFor(Abs(), app) ==> w in learn.value.wants
      ensures learn.Some? == old(learn).Some? && (learn.Some? ==> old(learn.value.wants) <= learn.value.wants)
    {
      hide Query, Carried;
      if learn.Some? && learn.value.app == app && w !in learn.value.wants {
        learn := Some(Learning(app, learn.value.wants + [w]));
      }
    }

    /** An answer is given exactly for the program whose policy is in force; a refusal is on the
        list of wants when the program is being learned. */
    method PathGate(argv0: string, path: string, write: bool) returns (r: Option<bool>)
      requires Valid()
      modifies this`learn
      ensures Valid() && (Abs(), r) == CheckPath(old(Abs()), argv0, path, write)
      ensures r.Some? <==> active.Some? && active.value.app == KeyOf(argv0)
      ensures r == Some(true) ==> forall d :: d in HARD_DENY || d in active.value.deny ==> !Under(path, d)
      ensures r == Some(false) && LearningFor(Abs(), KeyOf(argv0)) ==>
                (if write then Write(path) else Read(path)) in learn.value.wants
    {
      hide KeyOf, Carried, Query, Under;
      if active.None? || active.value.app != KeyOf(argv0) {
        return None;
      }
      var ok := Allows(active.value, path, write);
      if !ok {
        RecordWant(active.value.app, if write then Write(path) else Read(path));
      }
      return Some(ok);
    }

    method DnsGate(argv0: string, name: string) returns (r: Option<bool>)
      requires Valid()
      modifies this`learn
      ensures Valid() && (Abs(), r) == CheckDns(old(Abs()), argv0, name)
      ensures r.Some? <==> active.Some? && active.value.app == KeyOf(argv0)
      ensures r.Some? ==> (r.value <==> exists d :: d in active.value.domains && InDomain(Query(name), d))
      ensures r == Some(false) && LearningFor(Abs(), KeyOf(argv0)) ==> Domain(Query(name)) in learn.value.wants
    {
      hide KeyOf, Carried, Query, InDomain;
      if active.None? || active.value.app != KeyOf(argv0) {
        return None;
      }
      var ok := Resolves(active.value, name);
      if !ok {
        DotsGone(name);
        RecordWant(active.value.app, Domain(Query(name)));
      }
      return Some(ok);
    }

    /** A fresh session: ending it at once would propose just what is stored. */
    method Begin(app: string)
      requires Valid()
      modifies this`learn
      ensures Valid() && Abs() == LearnStart(old(Abs()), app)
      ensures LearnFinish(Abs()).1 == Some((BaseFor(Abs(), app), BaseFor(Abs(), app)))
    {
      hide Carried, Load;
      learn := Some(Learning(app, []));
    }

    /** The proposal extends what is stored and serves every want of the session. */
    method EndLearning() returns (r: Option<(Policy, Policy)>)
      requires Valid()
      modifies this`learn, this`proposal
      ensures Valid() && (Abs(), r) == LearnFinish(old(Abs()))
      ensures learn.None? && (r.Some? <==> old(learn).Some?) && (r.Some? ==> proposal == r)
      ensures r.Some? ==> Extends(r.value.0, r.value.1) && forall w :: w in old(learn.value.wants) ==> Served(r.value.1, w)
    {
      hide Carried, Load, Proposed, Served, Extends;
      if learn.None? {
        return None;
      }
      var l := learn.value;
      learn := None;
      var loaded := Load(files, l.app);
      var base := if loaded.Some? then loaded.value else Empty(l.app);
      var proposed := Propose(base, l.wants);
      proposal := Some((base, proposed));
      ProposalExtends(base, l.wants);
      forall w | w in l.wants
        ensures Served(proposed, w)
      {
        var i :| 0 <= i < |l.wants| && l.wants[i] == w;
        EveryWantServed(base, l.wants, i);
      }
      return proposal;
    }

    /** An approved policy is loaded again as it is if and only if it can be carried; no other
        program's file changes. */
    method ApprovePolicy(p: Policy, owner: bool, stored: bool) returns (ok: bool)
      requires Valid()
      modifies this`files
      ensures Valid() && (Abs(), ok) == Approve(old(Abs()), p, owner, stored)
      ensures ok <==> owner && stored
      ensures ok ==> (Load(files, p.app) == Some(p) <==> Carried(p))
      ensures forall app :: app != p.app || !ok ==> Load(files, app) == Load(old(files), app)
    {
      hide FromToml, ToToml, Carried, FileOf;
      RoundTrip(p);
      forall app | app != p.app
        ensures FileOf(app) != FileOf(p.app)
      {
        if FileOf(app) == FileOf(p.app) {
          FilesApart(app, p.app);
        }
      }
      if !owner || !stored {
        return false;
      }
      files := files[FileOf(p.app) := ToToml(p)];
      return true;
    }

    /** What comes in force can be carried, or is the empty policy of the program being learned. */
    method LaunchApp(argv0: string) returns (p: Option<Policy>)
      requires Valid()
      modifies this`active
      ensures Valid() && (Abs(), p) == Activate(old(Abs()), argv0)
      ensures p.Some? ==> Carried(p.value) || (p.value == Empty(KeyOf(argv0)) && LearningFor(Abs(), KeyOf(argv0)))
      ensures p.None? ==> !LearningFor(Abs(), KeyOf(argv0))
    {
      hide KeyOf, Load, Carried;
      var app := KeyOf(argv0);
      LoadedIsCarried(files, app);
      p := Load(files, app);
      if p.None? && learn.Some? && learn.value.app == app {
        p := Some(Empty(app));
      }
      active := p;
    }
  }
}
