/** The Merkle tree of a EuroPack file: 32-byte leaves over 4 KiB pages, an odd node at
    any level paired with itself.

    The hash is a parameter.  Binding is stated by extraction: from two different leaf
    lists of equal length with equal roots, `FindCollision` computes two different
    messages with the same hash. */
module Merkle {
  import opened Common
  import opened Bytes
  import opened Words

  type Hash = seq<byte> -> seq<byte>

  const PAGE: nat := 4096
  const DIGEST: nat := 32

  ghost predicate Digests(h: Hash) {
    forall m :: |h(m)| == DIGEST
  }

  /** A short page is filled up with zeros. */
  function Pad(page: seq<byte>): (p: seq<byte>)
    ensures |page| <= PAGE ==> |p| == PAGE
  {
    if |page| < PAGE then page + Zeros(PAGE - |page|) else page
  }

  function LeafMsg(salt: seq<byte>, page: seq<byte>): seq<byte> {
    salt + [0] + Pad(page)
  }

  function Leaf(h: Hash, salt: seq<byte>, page: seq<byte>): seq<byte> {
    h(LeafMsg(salt, page))
  }

  function NodeMsg(salt: seq<byte>, l: seq<byte>, r: seq<byte>): seq<byte> {
    salt + [1] + l + r
  }

  function Node(h: Hash, salt: seq<byte>, l: seq<byte>, r: seq<byte>): seq<byte> {
    h(NodeMsg(salt, l, r))
  }

  // ---------- the tree ----------

  /** The message hashed for pair i of a level. */
  function PairMsg(salt: seq<byte>, level: seq<seq<byte>>, i: nat): seq<byte>
    requires 2 * i < |level|
  {
    NodeMsg(salt, level[2 * i], if 2 * i + 1 < |level| then level[2 * i + 1] else level[2 * i])
  }

  function Parents(h: Hash, salt: seq<byte>, level: seq<seq<byte>>): (up: seq<seq<byte>>)
    ensures |up| == (|level| + 1) / 2
  {
    seq((|level| + 1) / 2, i requires 0 <= i < (|level| + 1) / 2 => h(PairMsg(salt, level, i)))
  }

  function RootOf(h: Hash, salt: seq<byte>, leaves: seq<seq<byte>>): seq<byte>
    decreases |leaves|
  {
    if leaves == [] then Zeros(DIGEST)
    else if |leaves| == 1 then leaves[0]
    else RootOf(h, salt, Parents(h, salt, leaves))
  }

  /** The source's double loop. */
  method ComputeRoot(h: Hash, salt: seq<byte>, leaves: seq<seq<byte>>) returns (root: seq<byte>)
    ensures root == RootOf(h, salt, leaves)
  {
    if leaves == [] {
      return Zeros(DIGEST);
    }
    var level := leaves;
    while |level| > 1
      invariant |level| > 0
      invariant RootOf(h, salt, level) == RootOf(h, salt, leaves)
      decreases |level|
    {
      var next: seq<seq<byte>> := [];
      var i := 0;
      while i < |level|
        invariant i == 2 * |next| && |next| <= (|level| + 1) / 2
        invariant forall k :: 0 <= k < |next| ==> next[k] == h(PairMsg(salt, level, k))
      {
        var l := level[i];
        var r := if i + 1 < |level| then level[i + 1] else level[i];
        next := next + [Node(h, salt, l, r)];
        i := i + 2;
      }
      assert next == Parents(h, salt, level);
      level := next;
    }
    return level[0];
  }

  // ---------- the tree from the top ----------

  /** The node at this height over the leaves: the left half of its places is full before the right half begins, and
      a node without a right half is paired with itself. */
  ghost function Subroot(h: Hash, salt: seq<byte>, leaves: seq<seq<byte>>, height: nat): seq<byte>
    requires leaves != []
    decreases height
  {
    if height == 0 then leaves[0]
    else
      var half := Pow2(height - 1);
      if |leaves| <= half then
        var l := Subroot(h, salt, leaves, height - 1);
        h(salt + [1] + l + l)
      else
        var l, r := Subroot(h, salt, leaves[..half], height - 1), Subroot(h, salt, leaves[half..], height - 1);
        h(salt + [1] + l + r)
  }

  lemma ParentsSplit(h: Hash, salt: seq<byte>, level: seq<seq<byte>>, half: nat)
    requires 2 * half <= |level|
    ensures Parents(h, salt, level[..2 * half]) == Parents(h, salt, level)[..half]
    ensures Parents(h, salt, level[2 * half..]) == Parents(h, salt, level)[half..]
  {
    var a, b, up := level[..2 * half], level[2 * half..], Parents(h, salt, level);
    forall i | 0 <= i < half
      ensures Parents(h, salt, a)[i] == up[i]
    {
      assert PairMsg(salt, a, i) == PairMsg(salt, level, i);
    }
    forall i | 0 <= i < |up| - half
      ensures Parents(h, salt, b)[i] == up[half..][i]
    {
      assert PairMsg(salt, b, i) == PairMsg(salt, level, half + i);
      assert up[half + i] == h(PairMsg(salt, level, half + i));
    }
  }

  lemma SubrootUnfolds(h: Hash, salt: seq<byte>, leaves: seq<seq<byte>>, height: nat, half: nat)
    requires leaves != [] && 0 < height && half == Pow2(height - 1)
    ensures |leaves| <= half ==>
              var l := Subroot(h, salt, leaves, height - 1); Subroot(h, salt, leaves, height) == h(salt + [1] + l + l)
    ensures |leaves| > half ==>
              var l, r := Subroot(h, salt, leaves[..half], height - 1), Subroot(h, salt, leaves[half..], height - 1);
              Subroot(h, salt, leaves, height) == h(salt + [1] + l + r)
  {
  }

  lemma SubrootOfPair(h: Hash, salt: seq<byte>, leaves: seq<seq<byte>>)
    requires 0 < |leaves| <= 2
    ensures Subroot(h, salt, leaves, 1) == Subroot(h, salt, Parents(h, salt, leaves), 0)
  {
    assert Parents(h, salt, leaves)[0] == h(PairMsg(salt, leaves, 0));
    assert Pow2(0) == 1;
  }

  /** One level up the tree is the same tree, one lower. */
  lemma {:induction false} SubrootOfParents(h: Hash, salt: seq<byte>, leaves: seq<seq<byte>>, height: nat)
    requires leaves != [] && 0 < height && |leaves| <= Pow2(height)
    ensures Subroot(h, salt, leaves, height) == Subroot(h, salt, Parents(h, salt, leaves), height - 1)
    decreases height
  {
    hide Subroot, Parents, Pow2;
    if height == 1 {
      Doubled(1);
      SubrootOfPair(h, salt, leaves);
    } else {
      Doubled(height);
      Doubled(height - 1);
      var quarter := Pow2(height - 2);
      if |leaves| <= 2 * quarter {
        SubrootOfParents(h, salt, leaves, height - 1);
        OneHalf(h, salt, leaves, height, quarter);
      } else {
        SubrootOfParents(h, salt, leaves[..2 * quarter], height - 1);
        SubrootOfParents(h, salt, leaves[2 * quarter..], height - 1);
        TwoHalves(h, salt, leaves, height, quarter);
      }
    }
  }

  lemma Doubled(n: nat)
    requires 0 < n
    ensures Pow2(n) == 2 * Pow2(n - 1) && Pow2(0) == 1
  {
  }

  lemma OneHalf(h: Hash, salt: seq<byte>, leaves: seq<seq<byte>>, height: nat, quarter: nat)
    requires 1 < height && quarter == Pow2(height - 2) && 0 < |leaves| <= 2 * quarter
    requires Subroot(h, salt, leaves, height - 1) == Subroot(h, salt, Parents(h, salt, leaves), height - 2)
    ensures Subroot(h, salt, leaves, height) == Subroot(h, salt, Parents(h, salt, leaves), height - 1)
  {
    hide Subroot, Parents, Pow2;
    Doubled(height - 1);
    SubrootUnfolds(h, salt, leaves, height, 2 * quarter);
    SubrootUnfolds(h, salt, Parents(h, salt, leaves), height - 1, quarter);
  }

  lemma TwoHalves(h: Hash, salt: seq<byte>, leaves: seq<seq<byte>>, height: nat, quarter: nat)
    requires 1 < height && quarter == Pow2(height - 2) && 2 * quarter < |leaves|
    requires var a := leaves[..2 * quarter];
             Subroot(h, salt, a, height - 1) == Subroot(h, salt, Parents(h, salt, a), height - 2)
    requires var b := leaves[2 * quarter..];
             Subroot(h, salt, b, height - 1) == Subroot(h, salt, Parents(h, salt, b), height - 2)
    ensures Subroot(h, salt, leaves, height) == Subroot(h, salt, Parents(h, salt, leaves), height - 1)
  {
    hide Subroot, Parents, Pow2;
    Doubled(height - 1);
    ParentsSplit(h, salt, leaves, quarter);
    SubrootUnfolds(h, salt, leaves, height, 2 * quarter);
    SubrootUnfolds(h, salt, Parents(h, salt, leaves), height - 1, quarter);
  }

  /** The root computed level by level is the top node of the lowest tree that holds the leaves. */
  lemma {:induction false} RootIsTop(h: Hash, salt: seq<byte>, leaves: seq<seq<byte>>, height: nat)
    requires leaves != [] && |leaves| <= Pow2(height) && (height == 0 || Pow2(height - 1) < |leaves|)
    ensures RootOf(h, salt, leaves) == Subroot(h, salt, leaves, height)
    decreases height
  {
    if height > 0 {
      SubrootOfParents(h, salt, leaves, height);
      RootIsTop(h, salt, Parents(h, salt, leaves), height - 1);
    }
  }

  // ---------- binding ----------

  ghost predicate Collision(h: Hash, c: (seq<byte>, seq<byte>)) {
    c.0 != c.1 && h(c.0) == h(c.1)
  }

  /** The first pair, from i on, whose messages differ. */
  function DifferingPair(salt: seq<byte>, a: seq<seq<byte>>, b: seq<seq<byte>>, i: nat): Option<(seq<byte>, seq<byte>)>
    requires |a| == |b|
    decreases |a| - 2 * i
  {
    if 2 * i >= |a| then None
    else if PairMsg(salt, a, i) != PairMsg(salt, b, i) then Some((PairMsg(salt, a, i), PairMsg(salt, b, i)))
    else DifferingPair(salt, a, b, i + 1)
  }

  function FindCollision(h: Hash, salt: seq<byte>, a: seq<seq<byte>>, b: seq<seq<byte>>): Option<(seq<byte>, seq<byte>)>
    requires |a| == |b|
    decreases |a|
  {
    if |a| <= 1 then None
    else if Parents(h, salt, a) == Parents(h, salt, b) then DifferingPair(salt, a, b, 0)
    else FindCollision(h, salt, Parents(h, salt, a), Parents(h, salt, b))
  }

  /** Leaves of the right size on one side, at most that on the other (a leaf table cut
      short by the end of the file gives short ones). */
  ghost predicate Sized(a: seq<seq<byte>>, b: seq<seq<byte>>) {
    && |a| == |b|
    && (forall k :: 0 <= k < |a| ==> |a[k]| == DIGEST)
    && (forall k :: 0 <= k < |b| ==> |b[k]| <= DIGEST)
  }

  lemma NodeMsgInjective(salt: seq<byte>, l: seq<byte>, r: seq<byte>, l': seq<byte>, r': seq<byte>)
    requires |l| == |r| == DIGEST && |l'| <= DIGEST && |r'| <= DIGEST
    requires NodeMsg(salt, l, r) == NodeMsg(salt, l', r')
    ensures l == l' && r == r'
  {
    var m, m' := NodeMsg(salt, l, r), NodeMsg(salt, l', r');
    assert |m| == |salt| + 1 + 2 * DIGEST;
    assert |m'| == |salt| + 1 + |l'| + |r'|;
    assert |l'| == DIGEST && |r'| == DIGEST;
    assert l == m[|salt| + 1..|salt| + 1 + DIGEST] == m'[|salt| + 1..|salt| + 1 + DIGEST] == l';
    assert r == m[|salt| + 1 + DIGEST..] == m'[|salt| + 1 + DIGEST..] == r';
  }

  lemma SamePairsSameLevel(salt: seq<byte>, a: seq<seq<byte>>, b: seq<seq<byte>>)
    requires Sized(a, b) && forall i :: 0 <= 2 * i < |a| ==> PairMsg(salt, a, i) == PairMsg(salt, b, i)
    ensures a == b
  {
    forall k | 0 <= k < |a|
      ensures a[k] == b[k]
    {
      var i := k / 2;
      assert PairMsg(salt, a, i) == PairMsg(salt, b, i);
      var j := if 2 * i + 1 < |a| then 2 * i + 1 else 2 * i;
      NodeMsgInjective(salt, a[2 * i], a[j], b[2 * i], b[j]);
    }
  }

  lemma ParentsSized(h: Hash, salt: seq<byte>, a: seq<seq<byte>>)
    requires Digests(h)
    ensures forall k :: 0 <= k < |Parents(h, salt, a)| ==> |Parents(h, salt, a)[k]| == DIGEST
  {
    forall k | 0 <= k < |Parents(h, salt, a)|
      ensures |Parents(h, salt, a)[k]| == DIGEST
    {
      assert Parents(h, salt, a)[k] == h(PairMsg(salt, a, k));
    }
  }

  lemma {:induction false} DifferingPairFinds(salt: seq<byte>, a: seq<seq<byte>>, b: seq<seq<byte>>, i: nat)
    requires |a| == |b|
    ensures match DifferingPair(salt, a, b, i)
            case None => forall k :: i <= k && 2 * k < |a| ==> PairMsg(salt, a, k) == PairMsg(salt, b, k)
            case Some(c) => exists k :: i <= k && 2 * k < |a| && c == (PairMsg(salt, a, k), PairMsg(salt, b, k)) && c.0 != c.1
    decreases |a| - 2 * i
  {
    if 2 * i < |a| && PairMsg(salt, a, i) == PairMsg(salt, b, i) {
      DifferingPairFinds(salt, a, b, i + 1);
    }
  }

  /** Equal roots over equally many leaves mean equal leaves, or a hash collision that
      `FindCollision` exhibits. */
  lemma {:induction false} RootBinds(h: Hash, salt: seq<byte>, a: seq<seq<byte>>, b: seq<seq<byte>>)
    requires Digests(h) && Sized(a, b) && a != b && RootOf(h, salt, a) == RootOf(h, salt, b)
    ensures FindCollision(h, salt, a, b).Some? && Collision(h, FindCollision(h, salt, a, b).value)
    decreases |a|
  {
    if |a| > 1 {
      var pa, pb := Parents(h, salt, a), Parents(h, salt, b);
      if pa == pb {
        DifferingPairFinds(salt, a, b, 0);
        if DifferingPair(salt, a, b, 0).None? {
          SamePairsSameLevel(salt, a, b);
        } else {
          var c := DifferingPair(salt, a, b, 0).value;
          var k :| 0 <= k && 2 * k < |a| && c == (PairMsg(salt, a, k), PairMsg(salt, b, k)) && c.0 != c.1;
          assert pa[k] == pb[k];
        }
      } else {
        ParentsSized(h, salt, a);
        ParentsSized(h, salt, b);
        RootBinds(h, salt, pa, pb);
      }
    }
  }

  /** A padded page determines the page, given its length. */
  lemma PadBinds(page: seq<byte>, read: seq<byte>)
    requires |read| <= |page| <= PAGE && Pad(page) == Pad(read)
    ensures page == read + Zeros(|page| - |read|)
  {
    assert page == Pad(page)[..|page|];
    assert read + Zeros(|page| - |read|) == Pad(read)[..|page|];
  }
}

/** The EuroPack v2 image: building it, checking it, and what a passing check proves. */
module EuroPack {
  import opened Common
  import opened Bytes
  import opened Merkle

  const HEADER: nat := 112
  const ENTRY: nat := 248
  const PATHLEN: nat := 192
  const MAGIC1: seq<byte> := [0x45, 0x55, 0x52, 0x4F, 0x50, 0x43, 0x4B, 0x31]
  const MAGIC2: seq<byte> := [0x45, 0x55, 0x52, 0x4F, 0x50, 0x43, 0x4B, 0x32]

  datatype File = File(path: seq<byte>, data: seq<byte>)

  datatype Error = PathTooLong | Overflow | UnsignedV1 | BadMagic | Truncated | BadSignature | BadPath

  function Align(n: nat): (r: nat)
    ensures n <= r < n + PAGE && r % PAGE == 0
  {
    (n + PAGE - 1) / PAGE * PAGE
  }

  function PageCount(size: nat): (n: nat)
    ensures (n - 1) * PAGE < size <= n * PAGE || size == n == 0
  {
    (size + PAGE - 1) / PAGE
  }

  /** Page j of a file's data; the last may be short. */
  function PageOf(data: seq<byte>, j: nat): (p: seq<byte>)
    requires j < PageCount(|data|)
    ensures |p| == Min(PAGE, |data| - j * PAGE) && 0 < |p| <= PAGE
  {
    data[j * PAGE..Min((j + 1) * PAGE, |data|)]
  }

  function LeavesOf(h: Hash, salt: seq<byte>, data: seq<byte>): (l: seq<seq<byte>>)
    ensures |l| == PageCount(|data|)
  {
    seq(PageCount(|data|), j requires 0 <= j < PageCount(|data|) => Leaf(h, salt, PageOf(data, j)))
  }

  function Concat(parts: seq<seq<byte>>): seq<byte> {
    if parts == [] then [] else parts[0] + Concat(parts[1..])
  }

  // ---------- what one entry of the manifest says ----------

  datatype Entry = Entry(dataOff: nat, size: nat, leavesOff: nat, root: seq<byte>)

  function EntryBytes(path: seq<byte>, e: Entry): (b: seq<byte>)
    requires |path| < PATHLEN && |e.root| == DIGEST
    ensures |b| == ENTRY
  {
    path + Zeros(PATHLEN - |path|) + ToLE(e.dataOff, 8) + ToLE(e.size, 8) + ToLE(e.leavesOff, 8) + e.root
  }

  /** The bytes before the first zero byte. */
  function UpToNul(s: seq<byte>): seq<byte> {
    if s == [] || s[0] == 0 then [] else [s[0]] + UpToNul(s[1..])
  }

  lemma {:induction false} UpToNulPadded(path: seq<byte>, k: nat)
    requires k > 0
    ensures UpToNul(path + Zeros(k)) == UpToNul(path)
  {
    var s := path + Zeros(k);
    if path != [] && path[0] != 0 {
      assert s[0] == path[0] && s[1..] == path[1..] + Zeros(k);
      UpToNulPadded(path[1..], k);
    } else {
      assert s[0] == 0;
    }
  }

  /** Entry i out of the entry table, as `check` unpacks it. `decodes` says whether bytes are text. */
  function ParseEntry(decodes: seq<byte> -> bool, ents: seq<byte>, i: nat): Result<Entry, Error> {
    var e := Slice(ents, i * ENTRY, (i + 1) * ENTRY);
    if !decodes(UpToNul(Slice(e, 0, PATHLEN))) then Err(BadPath)
    else if |e| < 216 then Err(Truncated)
    else Ok(Entry(FromLE(e[192..200]), FromLE(e[200..208]), FromLE(e[208..216]), Slice(e, 216, 248)))
  }

  lemma Middle(a: seq<byte>, x: seq<byte>, b: seq<byte>)
    ensures (a + x + b)[|a|..|a| + |x|] == x
  {
  }

  lemma EntryRoundTrip(path: seq<byte>, e: Entry)
    requires |path| < PATHLEN && |e.root| == DIGEST
    requires e.dataOff < Pow256(8) && e.size < Pow256(8) && e.leavesOff < Pow256(8)
    ensures var b := EntryBytes(path, e);
            FromLE(b[192..200]) == e.dataOff && FromLE(b[200..208]) == e.size
            && FromLE(b[208..216]) == e.leavesOff && b[216..248] == e.root
  {
    hide ToLE, FromLE, Pow256;
    var p, d, s, l := path + Zeros(PATHLEN - |path|), ToLE(e.dataOff, 8), ToLE(e.size, 8), ToLE(e.leavesOff, 8);
    var b := EntryBytes(path, e);
    assert b == p + d + (s + l + e.root) == (p + d) + s + (l + e.root);
    assert b == (p + d + s) + l + e.root == (p + d + s + l) + e.root + [];
    Middle(p, d, s + l + e.root);
    Middle(p + d, s, l + e.root);
    Middle(p + d + s, l, e.root);
    Middle(p + d + s + l, e.root, []);
    LERoundTrip(e.dataOff, 8);
    LERoundTrip(e.size, 8);
    LERoundTrip(e.leavesOff, 8);
  }

  // ---------- checking one file ----------

  /** The leaf table `check` reads: n slices of 32 bytes, short at the end of the image. */
  function ReadLeaves(img: seq<byte>, off: nat, n: nat): (l: seq<seq<byte>>)
    ensures |l| == n && forall j :: 0 <= j < n ==> |l[j]| <= DIGEST
  {
    var raw := Slice(img, off, off + DIGEST * n);
    seq(n, j requires 0 <= j < n => Slice(raw, j * DIGEST, (j + 1) * DIGEST))
  }

  /** Page j as `check` reads it. */
  function ReadPage(img: seq<byte>, e: Entry, j: nat): (p: seq<byte>)
    requires j < PageCount(e.size)
    ensures |p| <= Min(PAGE, e.size - j * PAGE)
  {
    Slice(img, e.dataOff + j * PAGE, e.dataOff + j * PAGE + Min(PAGE, e.size - j * PAGE))
  }

  predicate FileOk(h: Hash, salt: seq<byte>, img: seq<byte>, e: Entry) {
    var n := PageCount(e.size);
    var leaves := ReadLeaves(img, e.leavesOff, n);
    && RootOf(h, salt, leaves) == e.root
    && forall j :: 0 <= j < n ==> Leaf(h, salt, ReadPage(img, e, j)) == leaves[j]
  }

  // ---------- what a passing check proves about one file ----------

  function DifferingPage(salt: seq<byte>, data: seq<byte>, img: seq<byte>, e: Entry, j: nat): Option<(seq<byte>, seq<byte>)>
    requires e.size == |data| && j <= PageCount(e.size)
    decreases PageCount(e.size) - j
  {
    if j == PageCount(e.size) then None
    else
      var a, b := LeafMsg(salt, PageOf(data, j)), LeafMsg(salt, ReadPage(img, e, j));
      if a != b then Some((a, b)) else DifferingPage(salt, data, img, e, j + 1)
  }

  /** Two messages with one hash, computed from the packed data and an image that passes
      but does not hold it. */
  function FileCollision(h: Hash, salt: seq<byte>, data: seq<byte>, img: seq<byte>, e: Entry): Option<(seq<byte>, seq<byte>)>
    requires e.size == |data|
  {
    var a, b := LeavesOf(h, salt, data), ReadLeaves(img, e.leavesOff, PageCount(e.size));
    if a != b then FindCollision(h, salt, a, b) else DifferingPage(salt, data, img, e, 0)
  }

  /** The file's bytes in the image, as many as the image has. */
  function Held(img: seq<byte>, e: Entry): (b: seq<byte>)
    ensures |b| <= e.size
  {
    Slice(img, e.dataOff, e.dataOff + e.size)
  }

  lemma {:induction false} DifferingPageFinds(h: Hash, salt: seq<byte>, data: seq<byte>, img: seq<byte>, e: Entry, j: nat)
    requires e.size == |data| && j <= PageCount(e.size)
    requires forall k :: j <= k < PageCount(e.size) ==>
                           Leaf(h, salt, PageOf(data, k)) == Leaf(h, salt, ReadPage(img, e, k))
    ensures match DifferingPage(salt, data, img, e, j)
            case Some(c) => Collision(h, c)
            case None => forall k :: j <= k < PageCount(e.size) ==>
                                       LeafMsg(salt, PageOf(data, k)) == LeafMsg(salt, ReadPage(img, e, k))
    decreases PageCount(e.size) - j
  {
    hide PageOf, ReadPage, PageCount, LeafMsg;
    if j < PageCount(e.size) {
      var a, b := LeafMsg(salt, PageOf(data, j)), LeafMsg(salt, ReadPage(img, e, j));
      if a == b {
        DifferingPageFinds(h, salt, data, img, e, j + 1);
      } else {
        assert Leaf(h, salt, PageOf(data, j)) == Leaf(h, salt, ReadPage(img, e, j));
      }
    }
  }

  lemma LeafMsgBinds(salt: seq<byte>, page: seq<byte>, read: seq<byte>)
    requires |read| <= |page| <= PAGE && LeafMsg(salt, page) == LeafMsg(salt, read)
    ensures page == read + Zeros(|page| - |read|)
  {
    assert Pad(page) == LeafMsg(salt, page)[|salt| + 1..];
    assert Pad(read) == LeafMsg(salt, read)[|salt| + 1..];
    PadBinds(page, read);
  }

  lemma PagesGiveData(data: seq<byte>, img: seq<byte>, e: Entry)
    requires e.size == |data|
    requires forall j :: 0 <= j < PageCount(e.size) ==>
               PageOf(data, j) == ReadPage(img, e, j) + Zeros(|PageOf(data, j)| - |ReadPage(img, e, j)|)
    ensures Held(img, e) + Zeros(e.size - |Held(img, e)|) == data
  {
    hide PageOf, ReadPage, PageCount, Held;
    var all := Held(img, e) + Zeros(e.size - |Held(img, e)|);
    forall x | 0 <= x < |data|
      ensures data[x] == all[x]
    {
      var j := x / PAGE;
      InPage(data, x);
      ReadByte(img, e, x);
      assert PageOf(data, j) == ReadPage(img, e, j) + Zeros(|PageOf(data, j)| - |ReadPage(img, e, j)|);
    }
  }

  /** Byte x of a file is byte x % PAGE of its page. */
  lemma InPage(data: seq<byte>, x: nat)
    requires x < |data|
    ensures x / PAGE < PageCount(|data|)
    ensures x % PAGE < |PageOf(data, x / PAGE)| && PageOf(data, x / PAGE)[x % PAGE] == data[x]
  {
  }

  /** And it is read from there as far as the image reaches. */
  lemma ReadByte(img: seq<byte>, e: Entry, x: nat)
    requires x < e.size && x / PAGE < PageCount(e.size)
    ensures var read := ReadPage(img, e, x / PAGE);
            && (x < |Held(img, e)| <==> e.dataOff + x < |img|)
            && (x % PAGE < |read| <==> e.dataOff + x < |img|)
            && (e.dataOff + x < |img| ==> read[x % PAGE] == img[e.dataOff + x] == Held(img, e)[x])
  {
    assert x == x / PAGE * PAGE + x % PAGE;
  }

  /** A file that passes under the size and root of `data` holds `data` up to a zero
      tail cut off by the end of the image, unless `FileCollision` yields a collision. */
  lemma FileBinds(h: Hash, salt: seq<byte>, data: seq<byte>, img: seq<byte>, e: Entry)
    requires Digests(h) && e.size == |data| && e.root == RootOf(h, salt, LeavesOf(h, salt, data))
    requires FileOk(h, salt, img, e)
    ensures match FileCollision(h, salt, data, img, e)
            case Some(c) => Collision(h, c)
            case None => Held(img, e) + Zeros(e.size - |Held(img, e)|) == data
  {
    var n := PageCount(e.size);
    var a, b := LeavesOf(h, salt, data), ReadLeaves(img, e.leavesOff, n);
    forall k | 0 <= k < n
      ensures |a[k]| == DIGEST
    {
      assert a[k] == h(LeafMsg(salt, PageOf(data, k)));
    }
    if a != b {
      RootBinds(h, salt, a, b);
    } else {
      forall k | 0 <= k < n
        ensures Leaf(h, salt, PageOf(data, k)) == Leaf(h, salt, ReadPage(img, e, k))
      {
        assert a[k] == b[k];
      }
      DifferingPageFinds(h, salt, data, img, e, 0);
      if DifferingPage(salt, data, img, e, 0).None? {
        forall j | 0 <= j < n
          ensures PageOf(data, j) == ReadPage(img, e, j) + Zeros(|PageOf(data, j)| - |ReadPage(img, e, j)|)
        {
          assert LeafMsg(salt, PageOf(data, j)) == LeafMsg(salt, ReadPage(img, e, j));
          LeafMsgBinds(salt, PageOf(data, j), ReadPage(img, e, j));
        }
        PagesGiveData(data, img, e);
      }
    }
  }

  /** So, barring a collision, the image holds exactly the packed bytes if and only if it
      is long enough to. */
  lemma HoldsExactlyWhenLongEnough(h: Hash, salt: seq<byte>, data: seq<byte>, img: seq<byte>, e: Entry)
    requires Digests(h) && e.size == |data| && e.root == RootOf(h, salt, LeavesOf(h, salt, data))
    requires FileOk(h, salt, img, e) && FileCollision(h, salt, data, img, e).None?
    ensures Held(img, e) == data <==> e.size == 0 || e.dataOff + e.size <= |img|
  {
    FileBinds(h, salt, data, img, e);
    var held := Held(img, e);
    if e.dataOff + e.size <= |img| {
      assert held + Zeros(0) == held;
    }
  }

  // ---------- laying out the image ----------

  /** Where regions of the given sizes start when each begins on the next page boundary. */
  function Offsets(start: nat, sizes: seq<nat>): (o: seq<nat>)
    ensures |o| == |sizes|
    decreases |sizes|
  {
    if sizes == [] then [] else [start] + Offsets(Align(start + sizes[0]), sizes[1..])
  }

  function EndOf(start: nat, sizes: seq<nat>): nat
    decreases |sizes|
  {
    if sizes == [] then start else EndOf(Align(start + sizes[0]), sizes[1..])
  }

  /** Where the last region ends, before any alignment. */
  function LastEnd(start: nat, sizes: seq<nat>): nat {
    if sizes == [] then start else Offsets(start, sizes)[|sizes| - 1] + sizes[|sizes| - 1]
  }

  /** Regions are page-aligned, in order and disjoint. */
  lemma {:induction false} OffsetsOk(start: nat, sizes: seq<nat>)
    requires start % PAGE == 0
    ensures start <= EndOf(start, sizes) && EndOf(start, sizes) % PAGE == 0
    ensures forall i :: 0 <= i < |sizes| ==>
              && Offsets(start, sizes)[i] % PAGE == 0
              && start <= Offsets(start, sizes)[i]
              && Offsets(start, sizes)[i] + sizes[i] <= EndOf(start, sizes)
    ensures forall i, j :: 0 <= i < j < |sizes| ==> Offsets(start, sizes)[i] + sizes[i] <= Offsets(start, sizes)[j]
    decreases |sizes|
  {
    if sizes != [] {
      var next := Align(start + sizes[0]);
      OffsetsOk(next, sizes[1..]);
      var o := Offsets(start, sizes);
      assert o == [start] + Offsets(next, sizes[1..]);
      forall i | 0 < i < |sizes|
        ensures o[i] == Offsets(next, sizes[1..])[i - 1] && sizes[i] == sizes[1..][i - 1]
      {
      }
    }
  }

  /** `seek` then `write`: a gap reads as zeros, and writing nothing extends nothing. */
  function WriteAt(img: seq<byte>, off: nat, b: seq<byte>): seq<byte> {
    if b == [] then img
    else
      var base := if |img| < off then img + Zeros(off - |img|) else img;
      base[..off] + b + base[Min(off + |b|, |base|)..]
  }

  function WriteAll(img: seq<byte>, offs: seq<nat>, parts: seq<seq<byte>>): seq<byte>
    requires |offs| == |parts|
    decreases |parts|
  {
    if parts == [] then img else WriteAll(WriteAt(img, offs[0], parts[0]), offs[1..], parts[1..])
  }

  function Sizes(parts: seq<seq<byte>>): (s: seq<nat>)
    ensures |s| == |parts| && forall i :: 0 <= i < |parts| ==> s[i] == |parts[i]|
  {
    seq(|parts|, i requires 0 <= i < |parts| => |parts[i]|)
  }

  ghost predicate Placed(img: seq<byte>, off: nat, b: seq<byte>) {
    b == [] || (off + |b| <= |img| && img[off..off + |b|] == b)
  }

  lemma AppendWrite(img: seq<byte>, off: nat, b: seq<byte>)
    requires |img| <= off
    ensures img <= WriteAt(img, off, b) && |WriteAt(img, off, b)| <= off + |b| && Placed(WriteAt(img, off, b), off, b)
  {
  }

  lemma PlacedStays(img: seq<byte>, longer: seq<byte>, off: nat, b: seq<byte>)
    requires img <= longer && Placed(img, off, b)
    ensures Placed(longer, off, b)
  {
  }

  lemma OffsetsUnfold(start: nat, parts: seq<seq<byte>>)
    requires parts != []
    ensures var next := Align(start + |parts[0]|);
            && Offsets(start, Sizes(parts)) == [start] + Offsets(next, Sizes(parts[1..]))
            && EndOf(start, Sizes(parts)) == EndOf(next, Sizes(parts[1..]))
            && LastEnd(start, Sizes(parts)) ==
               if |parts| == 1 then start + |parts[0]| else LastEnd(next, Sizes(parts[1..]))
  {
    hide Align;
    assert Sizes(parts)[1..] == Sizes(parts[1..]);
    assert Sizes(parts)[0] == |parts[0]|;
    hide Sizes;
  }

  /** No write clobbers another: everything written before stays, and every part is there
      at its offset. */
  lemma {:induction false} WriteAllOk(img: seq<byte>, start: nat, parts: seq<seq<byte>>)
    requires |img| <= start
    ensures var r := WriteAll(img, Offsets(start, Sizes(parts)), parts);
            && img <= r && |r| <= EndOf(start, Sizes(parts)) && |r| <= LastEnd(start, Sizes(parts))
            && forall i :: 0 <= i < |parts| ==> Placed(r, Offsets(start, Sizes(parts))[i], parts[i])
    decreases |parts|
  {
    hide WriteAt, Placed, Sizes;
    if parts != [] {
      hide Align;
      var next := Align(start + |parts[0]|);
      var first := WriteAt(img, start, parts[0]);
      AppendWrite(img, start, parts[0]);
      OffsetsUnfold(start, parts);
      WriteAllOk(first, next, parts[1..]);
      var offs := Offsets(start, Sizes(parts));
      assert offs[1..] == Offsets(next, Sizes(parts[1..]));
      var r := WriteAll(img, offs, parts);
      PlacedStays(first, r, start, parts[0]);
      forall i | 0 <= i < |parts|
        ensures Placed(r, offs[i], parts[i])
      {
        if i > 0 {
          assert parts[i] == parts[1..][i - 1] && offs[i] == offs[1..][i - 1];
        }
      }
    }
  }

  // ---------- building ----------

  ghost predicate Signs(sign: seq<byte> -> seq<byte>, verify: (seq<byte>, seq<byte>) -> bool) {
    forall m :: |sign(m)| == 64 && verify(m, sign(m))
  }

  function Tables(h: Hash, salt: seq<byte>, files: seq<File>): (t: seq<seq<byte>>)
    ensures |t| == |files|
  {
    seq(|files|, i requires 0 <= i < |files| => Concat(LeavesOf(h, salt, files[i].data)))
  }

  function Datas(files: seq<File>): (d: seq<seq<byte>>)
    ensures |d| == |files| && forall i :: 0 <= i < |files| ==> d[i] == files[i].data
  {
    seq(|files|, i requires 0 <= i < |files| => files[i].data)
  }

  function TableSizes(files: seq<File>): (s: seq<nat>)
    ensures |s| == |files|
  {
    seq(|files|, i requires 0 <= i < |files| => DIGEST * PageCount(|files[i].data|))
  }

  function TablesStart(files: seq<File>): nat {
    Align(HEADER + ENTRY * |files|)
  }

  function TableOffs(files: seq<File>): (o: seq<nat>)
    ensures |o| == |files|
  {
    Offsets(TablesStart(files), TableSizes(files))
  }

  function DataStart(files: seq<File>): nat {
    EndOf(TablesStart(files), TableSizes(files))
  }

  function DataOffs(files: seq<File>): (o: seq<nat>)
    ensures |o| == |files|
  {
    Offsets(DataStart(files), Sizes(Datas(files)))
  }

  function EntryOf(h: Hash, salt: seq<byte>, files: seq<File>, i: nat): Entry
    requires i < |files|
  {
    Entry(DataOffs(files)[i], |files[i].data|, TableOffs(files)[i], RootOf(h, salt, LeavesOf(h, salt, files[i].data)))
  }

  predicate PathsOk(files: seq<File>) {
    forall i :: 0 <= i < |files| ==> |files[i].path| < PATHLEN
  }

  /** The numbers fit their fields. */
  predicate NumbersOk(files: seq<File>) {
    && |files| < Pow256(4)
    && forall i :: 0 <= i < |files| ==>
         DataOffs(files)[i] < Pow256(8) && |files[i].data| < Pow256(8) && TableOffs(files)[i] < Pow256(8)
  }

  lemma {:induction false} RootSize(h: Hash, salt: seq<byte>, leaves: seq<seq<byte>>)
    requires Digests(h) && forall k :: 0 <= k < |leaves| ==> |leaves[k]| == DIGEST
    ensures |RootOf(h, salt, leaves)| == DIGEST
    decreases |leaves|
  {
    if |leaves| > 1 {
      ParentsSized(h, salt, leaves);
      RootSize(h, salt, Parents(h, salt, leaves));
    }
  }

  lemma LeavesSized(h: Hash, salt: seq<byte>, data: seq<byte>)
    requires Digests(h)
    ensures forall k :: 0 <= k < PageCount(|data|) ==> |LeavesOf(h, salt, data)[k]| == DIGEST
  {
  }

  lemma EntryRootSize(h: Hash, salt: seq<byte>, files: seq<File>, i: nat)
    requires Digests(h) && i < |files|
    ensures |EntryOf(h, salt, files, i).root| == DIGEST
  {
    LeavesSized(h, salt, files[i].data);
    RootSize(h, salt, LeavesOf(h, salt, files[i].data));
  }

  ghost function EntryParts(h: Hash, salt: seq<byte>, files: seq<File>): (p: seq<seq<byte>>)
    requires Digests(h) && PathsOk(files)
    ensures |p| == |files|
    ensures forall i :: 0 <= i < |files| ==> |p[i]| == ENTRY
  {
    seq(|files|, i requires 0 <= i < |files| =>
      EntryRootSize(h, salt, files, i); EntryBytes(files[i].path, EntryOf(h, salt, files, i)))
  }

  ghost function EntryTable(h: Hash, salt: seq<byte>, files: seq<File>): seq<byte>
    requires Digests(h) && PathsOk(files)
  {
    Concat(EntryParts(h, salt, files))
  }

  /** The first 48 bytes: magic, count, flags, salt. */
  function Head(salt: seq<byte>, count: nat): (b: seq<byte>)
    ensures |salt| == 32 ==> |b| == 48
  {
    MAGIC2 + ToLE(count, 4) + ToLE(0, 4) + salt
  }

  lemma {:induction false} ConcatSize(parts: seq<seq<byte>>, w: nat)
    requires forall i :: 0 <= i < |parts| ==> |parts[i]| == w
    ensures |Concat(parts)| == w * |parts|
  {
    if parts != [] {
      ConcatSize(parts[1..], w);
      assert w + w * |parts[1..]| == w * |parts|;
    }
  }

  /** Cutting a concatenation of equal parts gives the parts back. */
  lemma {:induction false} ConcatPart(parts: seq<seq<byte>>, w: nat, i: nat)
    requires i < |parts| && forall k :: 0 <= k < |parts| ==> |parts[k]| == w
    ensures i * w <= (i + 1) * w && Slice(Concat(parts), i * w, (i + 1) * w) == parts[i]
  {
    assert (i + 1) * w == i * w + w;
    var all, rest := Concat(parts), Concat(parts[1..]);
    if i == 0 {
      assert all[..w] == parts[0];
    } else {
      ConcatPart(parts[1..], w, i - 1);
      assert parts[1..][i - 1] == parts[i];
      assert (i - 1) * w + w == i * w;
      assert all[w..] == rest;
      assert Slice(all, i * w, (i + 1) * w) == Slice(rest, (i - 1) * w, (i - 1 + 1) * w);
    }
  }

  lemma TableSizesOk(h: Hash, salt: seq<byte>, files: seq<File>)
    requires Digests(h)
    ensures Sizes(Tables(h, salt, files)) == TableSizes(files)
  {
    forall i | 0 <= i < |files|
      ensures |Tables(h, salt, files)[i]| == DIGEST * PageCount(|files[i].data|)
    {
      LeavesSized(h, salt, files[i].data);
      ConcatSize(LeavesOf(h, salt, files[i].data), DIGEST);
    }
  }

  /** Header, empty signature and entries. */
  ghost function ManifestOf(h: Hash, salt: seq<byte>, files: seq<File>): seq<byte>
    requires Digests(h) && PathsOk(files)
  {
    Head(salt, |files|) + Zeros(64) + EntryTable(h, salt, files)
  }

  /** The image before it is signed. */
  ghost function Body(h: Hash, salt: seq<byte>, files: seq<File>): seq<byte>
    requires Digests(h) && PathsOk(files)
  {
    var tabled := WriteAll(ManifestOf(h, salt, files), TableOffs(files), Tables(h, salt, files));
    var filled := WriteAll(tabled, DataOffs(files), Datas(files));
    var end := Align(if files == [] then HEADER else LastEnd(DataStart(files), Sizes(Datas(files))));
    if |filled| < end then filled + Zeros(end - |filled|) else filled[..end]
  }

  /** What is signed: the header without the signature, then all entries. */
  function Tbs(img: seq<byte>, count: nat): seq<byte> {
    Slice(img, 0, 48) + Slice(img, HEADER, HEADER + ENTRY * count)
  }

  ghost function Build(h: Hash, sign: seq<byte> -> seq<byte>, salt: seq<byte>, files: seq<File>): Result<seq<byte>, Error>
    requires Digests(h)
  {
    if !PathsOk(files) then Err(PathTooLong)
    else if !NumbersOk(files) then Err(Overflow)
    else
      var body := Body(h, salt, files);
      Ok(WriteAt(body, 48, sign(Tbs(body, |files|))))
  }

  // ---------- checking ----------

  /** How many files from entry i on fail. */
  function CheckFrom(h: Hash, decodes: seq<byte> -> bool, salt: seq<byte>, img: seq<byte>, ents: seq<byte>,
                     i: nat, count: nat): Result<nat, Error>
    requires i <= count
    decreases count - i
  {
    if i == count then Ok(0)
    else match ParseEntry(decodes, ents, i)
      case Err(x) => Err(x)
      case Ok(e) =>
        match CheckFrom(h, decodes, salt, img, ents, i + 1, count)
        case Err(x) => Err(x)
        case Ok(bad) => Ok(if FileOk(h, salt, img, e) then bad else bad + 1)
  }

  function CountOf(img: seq<byte>): nat {
    FromLE(Slice(img, 8, 12))
  }

  function Check(h: Hash, decodes: seq<byte> -> bool, verify: (seq<byte>, seq<byte>) -> bool, img: seq<byte>)
    : Result<nat, Error>
  {
    var magic := Slice(img, 0, 8);
    if magic == MAGIC1 then Err(UnsignedV1)
    else if magic != MAGIC2 then Err(BadMagic)
    else if |img| < 12 then Err(Truncated)
    else
      var count := CountOf(img);
      if !verify(Tbs(img, count), Slice(img, 48, HEADER)) then Err(BadSignature)
      else CheckFrom(h, decodes, Slice(img, 16, 48), img, Slice(img, HEADER, HEADER + ENTRY * count), 0, count)
  }

  lemma {:induction false} AllFilesPass(h: Hash, decodes: seq<byte> -> bool, salt: seq<byte>, img: seq<byte>,
                                        ents: seq<byte>, i: nat, count: nat)
    requires i <= count
    ensures CheckFrom(h, decodes, salt, img, ents, i, count) == Ok(0) <==>
              forall k :: i <= k < count ==>
                ParseEntry(decodes, ents, k).Ok? && FileOk(h, salt, img, ParseEntry(decodes, ents, k).value)
    decreases count - i
  {
    hide ParseEntry, FileOk;
    if i < count {
      AllFilesPass(h, decodes, salt, img, ents, i + 1, count);
    }
  }

  /** The manifest fields of an image whose first bytes are a manifest. */
  lemma EntryTableParses(h: Hash, decodes: seq<byte> -> bool, salt: seq<byte>, files: seq<File>, i: nat)
    requires Digests(h) && PathsOk(files) && NumbersOk(files) && i < |files|
    ensures ParseEntry(decodes, EntryTable(h, salt, files), i)
            == if decodes(UpToNul(files[i].path)) then Ok(EntryOf(h, salt, files, i)) else Err(BadPath)
  {
    hide Concat, RootOf, LeavesOf, DataOffs, TableOffs, EntryBytes, FromLE, Pow256;
    EntryRootSize(h, salt, files, i);
    ConcatPart(EntryParts(h, salt, files), ENTRY, i);
    var e := EntryOf(h, salt, files, i);
    EntryRoundTrip(files[i].path, e);
    assert EntryParts(h, salt, files)[i] == EntryBytes(files[i].path, e);
    PathField(files[i].path, e);
  }

  lemma PathField(path: seq<byte>, e: Entry)
    requires |path| < PATHLEN && |e.root| == DIGEST
    ensures UpToNul(Slice(EntryBytes(path, e), 0, PATHLEN)) == UpToNul(path)
  {
    hide ToLE, UpToNul;
    var p, d, s, l := path + Zeros(PATHLEN - |path|), ToLE(e.dataOff, 8), ToLE(e.size, 8), ToLE(e.leavesOff, 8);
    FrontStays(p + d + s + l, e.root);
    FrontStays(p + d + s, l);
    FrontStays(p + d, s);
    FrontStays(p, d);
    assert p[..PATHLEN] == p;
    UpToNulPadded(path, PATHLEN - |path|);
  }

  lemma FrontStays(a: seq<byte>, b: seq<byte>)
    requires PATHLEN <= |a|
    ensures (a + b)[..PATHLEN] == a[..PATHLEN]
  {
  }

  // ---------- a built image passes ----------

  lemma PlacedLeaves(h: Hash, salt: seq<byte>, img: seq<byte>, data: seq<byte>, off: nat)
    requires Digests(h) && Placed(img, off, Concat(LeavesOf(h, salt, data)))
    ensures ReadLeaves(img, off, PageCount(|data|)) == LeavesOf(h, salt, data)
  {
    hide LeavesOf, Concat, PageCount;
    var leaves := LeavesOf(h, salt, data);
    var n := PageCount(|data|);
    LeavesSized(h, salt, data);
    ConcatSize(leaves, DIGEST);
    var raw := Slice(img, off, off + DIGEST * n);
    assert raw == Concat(leaves);
    forall j | 0 <= j < n
      ensures ReadLeaves(img, off, n)[j] == leaves[j]
    {
      ConcatPart(leaves, DIGEST, j);
    }
  }

  lemma PlacedPage(img: seq<byte>, data: seq<byte>, e: Entry, j: nat)
    requires e.size == |data| && Placed(img, e.dataOff, data) && j < PageCount(|data|)
    ensures ReadPage(img, e, j) == PageOf(data, j)
  {
    hide PageCount;
    var lo, hi := j * PAGE, j * PAGE + |PageOf(data, j)|;
    SliceOfSlice(img, e.dataOff, |data|, lo, hi);
    assert PageOf(data, j) == data[lo..hi];
  }

  lemma SliceOfSlice(img: seq<byte>, off: nat, n: nat, lo: nat, hi: nat)
    requires off + n <= |img| && lo <= hi <= n
    ensures img[off..off + n][lo..hi] == img[off + lo..off + hi]
  {
    var a, b := img[off..off + n][lo..hi], img[off + lo..off + hi];
    forall i | 0 <= i < hi - lo
      ensures a[i] == b[i]
    {
      assert a[i] == img[off..off + n][lo + i] == img[off + (lo + i)];
      assert b[i] == img[(off + lo) + i];
    }
  }

  lemma PlacedFilePasses(h: Hash, salt: seq<byte>, img: seq<byte>, data: seq<byte>, e: Entry)
    requires Digests(h) && e.size == |data| && e.root == RootOf(h, salt, LeavesOf(h, salt, data))
    requires Placed(img, e.leavesOff, Concat(LeavesOf(h, salt, data))) && Placed(img, e.dataOff, data)
    ensures FileOk(h, salt, img, e)
  {
    PlacedLeaves(h, salt, img, data, e.leavesOff);
    hide ReadPage, PageOf, Placed, ReadLeaves, RootOf, PageCount;
    forall j | 0 <= j < PageCount(e.size)
      ensures Leaf(h, salt, ReadPage(img, e, j)) == LeavesOf(h, salt, data)[j]
    {
      PlacedPage(img, data, e, j);
    }
  }

  lemma ManifestSize(h: Hash, salt: seq<byte>, files: seq<File>)
    requires Digests(h) && PathsOk(files) && |salt| == 32
    ensures |ManifestOf(h, salt, files)| == HEADER + ENTRY * |files|
    ensures |EntryTable(h, salt, files)| == ENTRY * |files|
  {
    ConcatSize(EntryParts(h, salt, files), ENTRY);
  }

  /** Every region of the image is page-aligned, and manifest, leaf tables and data come
      in that order without overlap. */
  lemma LayoutOk(files: seq<File>)
    ensures HEADER + ENTRY * |files| <= TablesStart(files) <= DataStart(files)
    ensures forall i :: 0 <= i < |files| ==>
              && TableOffs(files)[i] % PAGE == 0 && DataOffs(files)[i] % PAGE == 0
              && TablesStart(files) <= TableOffs(files)[i]
              && TableOffs(files)[i] + DIGEST * PageCount(|files[i].data|) <= DataStart(files) <= DataOffs(files)[i]
    ensures forall i, j :: 0 <= i < j < |files| ==>
              && TableOffs(files)[i] + DIGEST * PageCount(|files[i].data|) <= TableOffs(files)[j]
              && DataOffs(files)[i] + |files[i].data| <= DataOffs(files)[j]
  {
    OffsetsOk(TablesStart(files), TableSizes(files));
    OffsetsOk(DataStart(files), Sizes(Datas(files)));
  }

  lemma BodyOk(h: Hash, salt: seq<byte>, files: seq<File>)
    requires Digests(h) && PathsOk(files) && |salt| == 32
    ensures var b := Body(h, salt, files);
            && ManifestOf(h, salt, files) <= b
            && forall i :: 0 <= i < |files| ==>
                 Placed(b, TableOffs(files)[i], Concat(LeavesOf(h, salt, files[i].data)))
                 && Placed(b, DataOffs(files)[i], files[i].data)
  {
    hide Concat, LeavesOf, WriteAt, EntryTable, Head, Placed, Align, WriteAll, Offsets, EndOf, LastEnd, Sizes;
    ManifestSize(h, salt, files);
    TableSizesOk(h, salt, files);
    LayoutOk(files);
    var m := ManifestOf(h, salt, files);
    WriteAllOk(m, TablesStart(files), Tables(h, salt, files));
    var tabled := WriteAll(m, TableOffs(files), Tables(h, salt, files));
    WriteAllOk(tabled, DataStart(files), Datas(files));
    var filled := WriteAll(tabled, DataOffs(files), Datas(files));
    var b := Body(h, salt, files);
    if files == [] {
      NothingToWrite(m, TableOffs(files), Tables(h, salt, files));
      NothingToWrite(tabled, DataOffs(files), Datas(files));
    }
    assert filled <= b;
    forall i | 0 <= i < |files|
      ensures Placed(b, TableOffs(files)[i], Concat(LeavesOf(h, salt, files[i].data)))
              && Placed(b, DataOffs(files)[i], files[i].data)
    {
      PlacedStays(tabled, b, TableOffs(files)[i], Tables(h, salt, files)[i]);
      PlacedStays(filled, b, DataOffs(files)[i], Datas(files)[i]);
    }
  }

  lemma NothingToWrite(img: seq<byte>, offs: seq<nat>, parts: seq<seq<byte>>)
    requires |offs| == |parts| == 0
    ensures WriteAll(img, offs, parts) == img
  {
  }

  /** Signing changes only the signature field. */
  lemma SignatureField(body: seq<byte>, sig: seq<byte>)
    requires |sig| == 64 && HEADER <= |body|
    ensures var img := WriteAt(body, 48, sig);
            |img| == |body| && img[..48] == body[..48] && img[48..HEADER] == sig && img[HEADER..] == body[HEADER..]
  {
  }

  lemma PlacedPastHeader(body: seq<byte>, img: seq<byte>, off: nat, b: seq<byte>)
    requires |img| == |body| >= HEADER && img[HEADER..] == body[HEADER..] && HEADER <= off && Placed(body, off, b)
    ensures Placed(img, off, b)
  {
  }

  lemma HeadFields(salt: seq<byte>, count: nat)
    requires |salt| == 32 && count < Pow256(4)
    ensures var b := Head(salt, count);
            b[..8] == MAGIC2 && FromLE(b[8..12]) == count && b[16..48] == salt
  {
    hide ToLE, FromLE, Pow256;
    var b := Head(salt, count);
    assert b[8..12] == ToLE(count, 4);
    LERoundTrip(count, 4);
    assert b[..8] == MAGIC2;
    assert b[16..48] == salt;
  }

  /** What `check` reads from the start of a built image. */
  lemma BuiltFields(h: Hash, sign: seq<byte> -> seq<byte>, verify: (seq<byte>, seq<byte>) -> bool,
                    salt: seq<byte>, files: seq<File>)
    requires Digests(h) && Signs(sign, verify) && |salt| == 32 && Build(h, sign, salt, files).Ok?
    ensures var img := Build(h, sign, salt, files).value;
            var body := Body(h, salt, files);
            && |img| == |body| >= HEADER + ENTRY * |files|
            && img[..48] == Head(salt, |files|) && img[HEADER..] == body[HEADER..]
            && img[48..HEADER] == sign(Tbs(body, |files|)) && Tbs(img, |files|) == Tbs(body, |files|)
            && Slice(img, HEADER, HEADER + ENTRY * |files|) == EntryTable(h, salt, files)
  {
    hide Head, Body, WriteAt, EntryTable;
    var body := Body(h, salt, files);
    BodyOk(h, salt, files);
    ManifestSize(h, salt, files);
    var sig := sign(Tbs(body, |files|));
    SignatureField(body, sig);
    var img := WriteAt(body, 48, sig);
    var m := ManifestOf(h, salt, files);
    assert m[..48] == Head(salt, |files|) && body[..48] == m[..48];
    var end := HEADER + ENTRY * |files|;
    assert img[HEADER..end] == img[HEADER..][..end - HEADER] == body[HEADER..][..end - HEADER] == body[HEADER..end];
    assert body[HEADER..end] == m[HEADER..end] == EntryTable(h, salt, files);
  }

  lemma TbsFields(img: seq<byte>, salt: seq<byte>, count: nat)
    requires |salt| == 32 && count < Pow256(4) && 48 <= |img| && img[..48] == Head(salt, count)
    ensures Slice(img, 0, 8) == MAGIC2 && CountOf(img) == count && Slice(img, 16, 48) == salt
  {
    hide Head, FromLE, Pow256;
    HeadFields(salt, count);
    var b := Head(salt, count);
    assert img[..8] == img[..48][..8] && img[8..12] == img[..48][8..12] && img[16..48] == img[..48][16..48];
  }

  /** Whatever is packed, `check` finds the signature, every root and every page right. */
  lemma BuiltImagePasses(h: Hash, decodes: seq<byte> -> bool, sign: seq<byte> -> seq<byte>,
                         verify: (seq<byte>, seq<byte>) -> bool, salt: seq<byte>, files: seq<File>)
    requires Digests(h) && Signs(sign, verify) && |salt| == 32 && Build(h, sign, salt, files).Ok?
    ensures Check(h, decodes, verify, Build(h, sign, salt, files).value) == Ok(0) <==>
              forall i :: 0 <= i < |files| ==> decodes(UpToNul(files[i].path))
  {
    hide Head, Body, EntryTable, FileOk, ParseEntry, CheckFrom, UpToNul, Build, Pow256, Tbs, CountOf, EntryOf;
    var img := Build(h, sign, salt, files).value;
    BuiltParts(h, sign, salt, files);
    var n := |files|;
    BuiltFields(h, sign, verify, salt, files);
    TbsFields(img, salt, n);
    assert MAGIC1[7] != MAGIC2[7];
    var ents := EntryTable(h, salt, files);
    forall i | 0 <= i < n
      ensures ParseEntry(decodes, ents, i).Ok? <==> decodes(UpToNul(files[i].path))
      ensures ParseEntry(decodes, ents, i).Ok? ==> FileOk(h, salt, img, ParseEntry(decodes, ents, i).value)
    {
      EntryTableParses(h, decodes, salt, files, i);
      BuiltFilePasses(h, salt, files, img, i);
    }
    AllFilesPass(h, decodes, salt, img, ents, 0, n);
  }

  lemma BuiltFilePasses(h: Hash, salt: seq<byte>, files: seq<File>, img: seq<byte>, i: nat)
    requires Digests(h) && PathsOk(files) && |salt| == 32 && i < |files|
    requires var body := Body(h, salt, files); |img| == |body| >= HEADER && img[HEADER..] == body[HEADER..]
    ensures FileOk(h, salt, img, EntryOf(h, salt, files, i))
  {
    hide Body, FileOk, LeavesOf, Placed, Concat, RootOf;
    var body, data := Body(h, salt, files), files[i].data;
    BodyOk(h, salt, files);
    LayoutOk(files);
    PlacedPastHeader(body, img, TableOffs(files)[i], Concat(LeavesOf(h, salt, data)));
    PlacedPastHeader(body, img, DataOffs(files)[i], data);
    PlacedFilePasses(h, salt, img, data, EntryOf(h, salt, files, i));
  }

  lemma BuiltParts(h: Hash, sign: seq<byte> -> seq<byte>, salt: seq<byte>, files: seq<File>)
    requires Digests(h) && Build(h, sign, salt, files).Ok?
    ensures PathsOk(files) && NumbersOk(files) && |files| < Pow256(4)
  {
  }

  // ---------- the format, byte by byte ----------

  /** The header: magic, count, flags, salt, and the signature over all but itself and the entries. */
  lemma BuiltHeader(h: Hash, sign: seq<byte> -> seq<byte>, verify: (seq<byte>, seq<byte>) -> bool,
                    salt: seq<byte>, files: seq<File>)
    requires Digests(h) && Signs(sign, verify) && |salt| == 32 && Build(h, sign, salt, files).Ok?
    ensures var img := Build(h, sign, salt, files).value;
            && |img| >= 112 + 248 * |files| && |img| % 4096 == 0
            && img[..8] == [0x45, 0x55, 0x52, 0x4F, 0x50, 0x43, 0x4B, 0x32]
            && FromLE(img[8..12]) == |files| && img[12..16] == [0, 0, 0, 0] && img[16..48] == salt
            && img[48..112] == sign(img[..48] + img[112..112 + 248 * |files|])
  {
    BuiltParts(h, sign, salt, files);
    BuiltFields(h, sign, verify, salt, files);
    hide Body, EntryTable, Build, FromLE, Pow256, Head;
    BodySize(h, salt, files);
    HeaderFields(Build(h, sign, salt, files).value, salt, |files|);
  }

  lemma HeaderFields(img: seq<byte>, salt: seq<byte>, count: nat)
    requires |salt| == 32 && count < Pow256(4) && 48 <= |img| && img[..48] == Head(salt, count)
    ensures img[..8] == [0x45, 0x55, 0x52, 0x4F, 0x50, 0x43, 0x4B, 0x32] && FromLE(img[8..12]) == count
    ensures img[12..16] == [0, 0, 0, 0] && img[16..48] == salt
  {
    hide FromLE, Pow256, ToLE, Head;
    HeadFields(salt, count);
    HeadFlags(salt, count);
    var b := Head(salt, count);
    assert img[..8] == b[..8] && img[8..12] == b[8..12] && img[12..16] == b[12..16] && img[16..48] == b[16..48];
  }

  lemma HeadFlags(salt: seq<byte>, count: nat)
    requires |salt| == 32
    ensures Head(salt, count)[12..16] == [0, 0, 0, 0]
  {
    assert ToLE(0, 4) == [0, 0, 0, 0];
    var b := Head(salt, count);
    assert b[12..16] == ToLE(0, 4);
  }

  lemma BodySize(h: Hash, salt: seq<byte>, files: seq<File>)
    requires Digests(h) && PathsOk(files) && |salt| == 32
    ensures |Body(h, salt, files)| % 4096 == 0
    ensures files != [] ==>
              |Body(h, salt, files)| == Align(DataOffs(files)[|files| - 1] + |files[|files| - 1].data|)
  {
    hide Align, WriteAll, ManifestOf, Offsets, TableOffs, Tables, EndOf;
    var d := Sizes(Datas(files));
    if files != [] {
      assert LastEnd(DataStart(files), d) == DataOffs(files)[|files| - 1] + |files[|files| - 1].data|;
    }
  }

  /** Entry i: the path and zeros, three numbers, the root. What the numbers say is there: the data, and for each page
      of it the hash of salt, a zero byte and the page filled up with zeros. */
  lemma BuiltEntry(h: Hash, sign: seq<byte> -> seq<byte>, verify: (seq<byte>, seq<byte>) -> bool,
                   salt: seq<byte>, files: seq<File>, i: nat)
    requires Digests(h) && Signs(sign, verify) && |salt| == 32 && Build(h, sign, salt, files).Ok? && i < |files|
    ensures var img, f, at := Build(h, sign, salt, files).value, files[i], 112 + 248 * i;
            && |img| >= at + 248 && |f.path| < 192
            && img[at..at + 192] == f.path + Zeros(192 - |f.path|)
            && var data, size, leaves := FromLE(img[at + 192..at + 200]), FromLE(img[at + 200..at + 208]),
                                         FromLE(img[at + 208..at + 216]);
               && size == |f.data| && data % 4096 == 0 && leaves % 4096 == 0
               && Placed(img, data, f.data)
               && (forall j :: 0 <= j && j * 4096 < size ==> LeafAt(h, salt, img, leaves, f.data, j))
               && img[at + 216..at + 248] == RootOf(h, salt, LeavesOf(h, salt, f.data))
  {
    BuiltParts(h, sign, salt, files);
    BuiltFields(h, sign, verify, salt, files);
    hide Build, Head, Pow256, FromLE, ToLE, Body, Tbs, Zeros, LeavesOf, RootOf, LeafAt, Placed, Concat;
    var img, f, at := Build(h, sign, salt, files).value, files[i], 112 + 248 * i;
    var e := EntryOf(h, salt, files, i);
    EntryRootSize(h, salt, files, i);
    EntryAt(h, salt, files, img, i);
    EntryRoundTrip(f.path, e);
    EntryFields(img, at, EntryBytes(f.path, e));
    PathBytes(f.path, e);
    BuiltFilePlaced(h, salt, files, img, i);
  }

  /** The 32 bytes of leaf j. */
  ghost predicate LeafAt(h: Hash, salt: seq<byte>, img: seq<byte>, leaves: nat, data: seq<byte>, j: nat)
    requires j * 4096 < |data|
  {
    && leaves + 32 * j + 32 <= |img|
    && var page := data[j * 4096..Min(|data|, j * 4096 + 4096)];
       img[leaves + 32 * j..leaves + 32 * j + 32] == h(salt + [0] + page + Zeros(4096 - |page|))
  }

  lemma EntryAt(h: Hash, salt: seq<byte>, files: seq<File>, img: seq<byte>, i: nat)
    requires Digests(h) && PathsOk(files) && i < |files| && |img| >= HEADER + ENTRY * |files|
    requires Slice(img, HEADER, HEADER + ENTRY * |files|) == EntryTable(h, salt, files)
    requires |EntryOf(h, salt, files, i).root| == DIGEST
    ensures var at := 112 + 248 * i; img[at..at + 248] == EntryBytes(files[i].path, EntryOf(h, salt, files, i))
  {
    hide Concat, EntryOf, EntryBytes;
    var parts, n, at := EntryParts(h, salt, files), |files|, 112 + 248 * i;
    ConcatPart(parts, ENTRY, i);
    var table := img[HEADER..HEADER + ENTRY * n];
    assert table == Concat(parts);
    SliceOfSlice(img, HEADER, ENTRY * n, i * ENTRY, (i + 1) * ENTRY);
    assert img[at..at + 248] == table[i * ENTRY..(i + 1) * ENTRY] == parts[i];
  }

  lemma EntryFields(img: seq<byte>, at: nat, b: seq<byte>)
    requires at + 248 <= |img| && |b| == 248 && img[at..at + 248] == b
    ensures img[at..at + 192] == b[..192] && img[at + 192..at + 200] == b[192..200]
    ensures img[at + 200..at + 208] == b[200..208] && img[at + 208..at + 216] == b[208..216]
    ensures img[at + 216..at + 248] == b[216..248]
  {
    SliceOfSlice(img, at, 248, 0, 192);
    SliceOfSlice(img, at, 248, 192, 200);
    SliceOfSlice(img, at, 248, 200, 208);
    SliceOfSlice(img, at, 248, 208, 216);
    SliceOfSlice(img, at, 248, 216, 248);
  }

  lemma PathBytes(path: seq<byte>, e: Entry)
    requires |path| < PATHLEN && |e.root| == DIGEST
    ensures EntryBytes(path, e)[..192] == path + Zeros(192 - |path|)
  {
    hide ToLE;
    var p, d, s, l := path + Zeros(PATHLEN - |path|), ToLE(e.dataOff, 8), ToLE(e.size, 8), ToLE(e.leavesOff, 8);
    FrontStays(p + d + s + l, e.root);
    FrontStays(p + d + s, l);
    FrontStays(p + d, s);
    FrontStays(p, d);
    assert p[..PATHLEN] == p;
  }

  lemma BuiltFilePlaced(h: Hash, salt: seq<byte>, files: seq<File>, img: seq<byte>, i: nat)
    requires Digests(h) && PathsOk(files) && |salt| == 32 && i < |files|
    requires var body := Body(h, salt, files); |img| == |body| >= HEADER && img[HEADER..] == body[HEADER..]
    ensures var e := EntryOf(h, salt, files, i);
            && e.dataOff % 4096 == 0 && e.leavesOff % 4096 == 0 && Placed(img, e.dataOff, files[i].data)
            && forall j :: 0 <= j && j * 4096 < |files[i].data| ==> LeafAt(h, salt, img, e.leavesOff, files[i].data, j)
  {
    hide Body, LeavesOf, Placed, Concat, RootOf, LeafAt;
    var body, data := Body(h, salt, files), files[i].data;
    BodyOk(h, salt, files);
    LayoutOk(files);
    PlacedPastHeader(body, img, TableOffs(files)[i], Concat(LeavesOf(h, salt, data)));
    PlacedPastHeader(body, img, DataOffs(files)[i], data);
    forall j | 0 <= j && j * 4096 < |data|
      ensures LeafAt(h, salt, img, TableOffs(files)[i], data, j)
    {
      LeafPlaced(h, salt, img, TableOffs(files)[i], data, j);
    }
  }

  lemma LeafPlaced(h: Hash, salt: seq<byte>, img: seq<byte>, off: nat, data: seq<byte>, j: nat)
    requires Digests(h) && Placed(img, off, Concat(LeavesOf(h, salt, data))) && j * 4096 < |data|
    ensures LeafAt(h, salt, img, off, data, j)
  {
    hide Concat;
    var leaves, n := LeavesOf(h, salt, data), PageCount(|data|);
    assert j < n;
    LeavesSized(h, salt, data);
    ConcatSize(leaves, DIGEST);
    ConcatPart(leaves, DIGEST, j);
    SliceOfSlice(img, off, DIGEST * n, j * DIGEST, (j + 1) * DIGEST);
    var page := PageOf(data, j);
    assert page == data[j * 4096..Min(|data|, j * 4096 + 4096)];
    assert LeafMsg(salt, page) == salt + [0] + page + Zeros(4096 - |page|);
  }

  /** Nothing is wasted: the leaf tables begin on the first page after the entries, each region on the first page after
      the one before it. */
  lemma LayoutTight(files: seq<File>, i: nat)
    requires i < |files|
    ensures TableOffs(files)[0] == Align(112 + 248 * |files|)
    ensures var end := TableOffs(files)[i] + 32 * PageCount(|files[i].data|);
            if i + 1 < |files| then TableOffs(files)[i + 1] == Align(end) else DataOffs(files)[0] == Align(end)
    ensures i + 1 < |files| ==> DataOffs(files)[i + 1] == Align(DataOffs(files)[i] + |files[i].data|)
  {
    hide Align, PageCount, Offsets, EndOf;
    OffsetsTight(TablesStart(files), TableSizes(files), i);
    OffsetsTight(DataStart(files), Sizes(Datas(files)), i);
    OffsetsTight(DataStart(files), Sizes(Datas(files)), 0);
    assert TableSizes(files)[i] == 32 * PageCount(|files[i].data|);
  }

  /** And the image ends with the page of its last byte. */
  lemma BuiltSize(h: Hash, sign: seq<byte> -> seq<byte>, verify: (seq<byte>, seq<byte>) -> bool,
                  salt: seq<byte>, files: seq<File>)
    requires Digests(h) && Signs(sign, verify) && |salt| == 32 && Build(h, sign, salt, files).Ok? && files != []
    ensures var last := |files| - 1;
            |Build(h, sign, salt, files).value| == Align(DataOffs(files)[last] + |files[last].data|)
  {
    BuiltParts(h, sign, salt, files);
    BuiltFields(h, sign, verify, salt, files);
    hide Build, Body, Head, Tbs, EntryTable, Align, DataOffs;
    BodySize(h, salt, files);
  }

  lemma {:induction false} OffsetsTight(start: nat, sizes: seq<nat>, i: nat)
    requires i < |sizes|
    ensures Offsets(start, sizes)[0] == start
    ensures var end := Offsets(start, sizes)[i] + sizes[i];
            if i + 1 < |sizes| then Offsets(start, sizes)[i + 1] == Align(end) else EndOf(start, sizes) == Align(end)
    decreases |sizes|
  {
    hide Align;
    var next := Align(start + sizes[0]);
    if i > 0 {
      OffsetsTight(next, sizes[1..], i - 1);
    } else if |sizes| == 1 {
      assert sizes[1..] == [];
    }
  }

  /** What is built: everything but a path over 191 bytes, or a number that does not fit its field. */
  lemma BuildSucceeds(h: Hash, sign: seq<byte> -> seq<byte>, salt: seq<byte>, files: seq<File>)
    requires Digests(h)
    ensures Build(h, sign, salt, files).Ok? <==>
            && |files| < 0x1_0000_0000
            && forall i :: 0 <= i < |files| ==>
                 && |files[i].path| <= 191 && |files[i].data| < 0x1_0000_0000_0000_0000
                 && DataOffs(files)[i] < 0x1_0000_0000_0000_0000 && TableOffs(files)[i] < 0x1_0000_0000_0000_0000
  {
    PowU32();
    PowU64();
    hide Body, Tbs, DataOffs, TableOffs, Pow256;
  }

  // ---------- what the check accepts ----------

  /** Entry k's fields can be read: its path is text, and its numbers are not cut off. */
  ghost predicate EntryReadable(decodes: seq<byte> -> bool, ents: seq<byte>, k: nat) {
    248 * k + 216 <= |ents| && decodes(UpToNul(ents[248 * k..248 * k + 192]))
  }

  /** The check gets to the files exactly when the magic is version 2's, the signature is one of the header and the
      entries, and every entry can be read. */
  lemma CheckSucceeds(h: Hash, decodes: seq<byte> -> bool, verify: (seq<byte>, seq<byte>) -> bool, img: seq<byte>)
    ensures Check(h, decodes, verify, img).Ok? <==>
            && 12 <= |img| && img[..8] == [0x45, 0x55, 0x52, 0x4F, 0x50, 0x43, 0x4B, 0x32]
            && var count := FromLE(img[8..12]);
               var ents := Slice(img, 112, 112 + 248 * count);
               && verify(Slice(img, 0, 48) + ents, Slice(img, 48, 112))
               && forall k :: 0 <= k < count ==> EntryReadable(decodes, ents, k)
  {
    hide FromLE, CheckFrom, EntryReadable;
    assert MAGIC1[7] != MAGIC2[7];
    if 12 <= |img| {
      var count := CountOf(img);
      EntriesRead(h, decodes, Slice(img, 16, 48), img, Slice(img, HEADER, HEADER + ENTRY * count), 0, count);
    }
  }

  lemma {:induction false} EntriesRead(h: Hash, decodes: seq<byte> -> bool, salt: seq<byte>, img: seq<byte>,
                                       ents: seq<byte>, i: nat, count: nat)
    requires i <= count && |ents| <= ENTRY * count
    ensures CheckFrom(h, decodes, salt, img, ents, i, count).Ok? <==>
              forall k :: i <= k < count ==> EntryReadable(decodes, ents, k)
    decreases count - i
  {
    hide ParseEntry, FileOk, EntryReadable;
    if i < count {
      EntriesRead(h, decodes, salt, img, ents, i + 1, count);
      EntryRead(decodes, ents, i);
    }
  }

  lemma EntryRead(decodes: seq<byte> -> bool, ents: seq<byte>, k: nat)
    ensures ParseEntry(decodes, ents, k).Ok? <==> EntryReadable(decodes, ents, k)
  {
    hide UpToNul;
    var e := Slice(ents, k * ENTRY, (k + 1) * ENTRY);
    assert k * ENTRY == 248 * k && (k + 1) * ENTRY == 248 * k + 248;
    if 216 <= |e| {
      assert e[..192] == ents[248 * k..248 * k + 192];
    }
  }

  /** The number answered is the number of files whose root or some page of them does not match. */
  lemma {:induction false} BadFilesCounted(h: Hash, decodes: seq<byte> -> bool, salt: seq<byte>, img: seq<byte>,
                                           ents: seq<byte>, i: nat, count: nat)
    requires i <= count && CheckFrom(h, decodes, salt, img, ents, i, count).Ok?
    ensures forall k :: i <= k < count ==> ParseEntry(decodes, ents, k).Ok?
    ensures CheckFrom(h, decodes, salt, img, ents, i, count).value ==
            |set k | i <= k < count && ParseEntry(decodes, ents, k).Ok?
                     && !FileOk(h, salt, img, ParseEntry(decodes, ents, k).value)|
    decreases count - i
  {
    hide ParseEntry, FileOk;
    var bad := set k | i <= k < count && ParseEntry(decodes, ents, k).Ok?
                       && !FileOk(h, salt, img, ParseEntry(decodes, ents, k).value);
    if i < count {
      BadFilesCounted(h, decodes, salt, img, ents, i + 1, count);
      var rest := set k | i + 1 <= k < count && ParseEntry(decodes, ents, k).Ok?
                          && !FileOk(h, salt, img, ParseEntry(decodes, ents, k).value);
      assert bad == if FileOk(h, salt, img, ParseEntry(decodes, ents, i).value) then rest else rest + {i};
    } else {
      assert bad == {};
    }
  }

  /** If an image passes and its signed bytes are those of an image built from `files`,
      then, for every file, it holds the packed data up to a zero tail beyond the end of
      the image, unless a hash collision can be computed from the two. */
  lemma PassingImageHoldsTheFiles(h: Hash, decodes: seq<byte> -> bool, sign: seq<byte> -> seq<byte>,
                                  verify: (seq<byte>, seq<byte>) -> bool, salt: seq<byte>, files: seq<File>,
                                  img: seq<byte>, i: nat)
    requires Digests(h) && Signs(sign, verify) && |salt| == 32 && Build(h, sign, salt, files).Ok? && i < |files|
    requires Check(h, decodes, verify, img) == Ok(0)
    requires Tbs(img, CountOf(img)) == Tbs(Build(h, sign, salt, files).value, |files|)
    ensures var e, data := EntryOf(h, salt, files, i), files[i].data;
            match FileCollision(h, salt, data, img, e)
            case Some(c) => Collision(h, c)
            case None => Held(img, e) + Zeros(e.size - |Held(img, e)|) == data
  {
    hide Head, Body, EntryTable, FileOk, ParseEntry, CheckFrom, UpToNul, Build, LeavesOf, Concat, Pow256, CountOf, RootOf,
         FileCollision, Held;
    BuiltParts(h, sign, salt, files);
    BuiltFields(h, sign, verify, salt, files);
    var built := Build(h, sign, salt, files).value;
    SameTbs(h, salt, files, built, img);
    TbsFields(img, salt, |files|);
    AllFilesPass(h, decodes, salt, img, EntryTable(h, salt, files), 0, |files|);
    EntryTableParses(h, decodes, salt, files, i);
    FileBinds(h, salt, files[i].data, img, EntryOf(h, salt, files, i));
  }

  lemma SameTbs(h: Hash, salt: seq<byte>, files: seq<File>, built: seq<byte>, img: seq<byte>)
    requires Digests(h) && PathsOk(files) && |salt| == 32
    requires HEADER + ENTRY * |files| <= |built| && built[..48] == Head(salt, |files|)
    requires |files| < Pow256(4)
    requires Slice(built, HEADER, HEADER + ENTRY * |files|) == EntryTable(h, salt, files)
    requires Tbs(img, CountOf(img)) == Tbs(built, |files|)
    ensures 48 <= |img| && img[..48] == Head(salt, |files|) && CountOf(img) == |files|
    ensures Slice(img, HEADER, HEADER + ENTRY * |files|) == EntryTable(h, salt, files)
  {
    hide Head, EntryTable, CountOf, Pow256;
    var t, u := Tbs(img, CountOf(img)), Tbs(built, |files|);
    assert u[..48] == built[..48];
    assert |img| >= 48;
    assert t[..48] == img[..48];
    TbsFields(img, salt, |files|);
    assert t[48..] == Slice(img, HEADER, HEADER + ENTRY * |files|);
    assert u[48..] == Slice(built, HEADER, HEADER + ENTRY * |files|);
  }

  // ---------- a truncated image can pass ----------

  lemma OneZeroByte(h: Hash, salt: seq<byte>)
    ensures Leaf(h, salt, [0]) == Leaf(h, salt, [])
  {
    assert Pad([0]) == Pad([]);
  }

  lemma OneFileLayout(path: seq<byte>)
    ensures var files := [File(path, [0])];
            TableOffs(files) == [4096] && DataOffs(files) == [8192] && PageCount(1) == 1
  {
    var files := [File(path, [0])];
    assert TablesStart(files) == 4096;
    assert TableSizes(files) == [32];
    assert Offsets(4096, [32]) == [4096] + Offsets(8192, []);
    assert EndOf(4096, [32]) == EndOf(8192, []) == 8192;
    assert Sizes(Datas(files)) == [1];
    assert Offsets(8192, [1]) == [8192] + Offsets(Align(8193), []);
  }

  lemma OneFileNumbers(path: seq<byte>)
    ensures NumbersOk([File(path, [0])])
  {
    OneFileLayout(path);
    PowU32();
    PowU64();
    hide Pow256, TableOffs, DataOffs;
  }

  lemma PrefixFields(img: seq<byte>, cut: seq<byte>, n: nat)
    requires cut <= img && HEADER + ENTRY * n <= |cut|
    ensures cut[..48] == img[..48] && cut[48..HEADER] == img[48..HEADER] && Tbs(cut, n) == Tbs(img, n)
    ensures Slice(cut, HEADER, HEADER + ENTRY * n) == Slice(img, HEADER, HEADER + ENTRY * n)
  {
  }

  /** A packed zero byte, cut off the image: the check still passes, and nothing of the
      file is there. */
  lemma TruncatedImagePasses(h: Hash, decodes: seq<byte> -> bool, sign: seq<byte> -> seq<byte>,
                             verify: (seq<byte>, seq<byte>) -> bool, salt: seq<byte>, path: seq<byte>)
    requires Digests(h) && Signs(sign, verify) && |salt| == 32 && |path| < PATHLEN && decodes(UpToNul(path))
    ensures var files := [File(path, [0])];
            && Build(h, sign, salt, files).Ok?
            && 8192 <= |Build(h, sign, salt, files).value|
            && var cut := Build(h, sign, salt, files).value[..8192];
               Check(h, decodes, verify, cut) == Ok(0) && Held(cut, EntryOf(h, salt, files, 0)) == []
  {
    var files := [File(path, [0])];
    OneFileNumbers(path);
    OneFileLayout(path);
    hide Head, Body, EntryTable, FileOk, ParseEntry, CheckFrom, UpToNul, LeavesOf, Concat, Pow256, Tbs, CountOf, RootOf,
         TableOffs, DataOffs, NumbersOk;
    var img := Build(h, sign, salt, files).value;
    BuiltFields(h, sign, verify, salt, files);
    BuiltParts(h, sign, salt, files);
    BodyOk(h, salt, files);
    var body := Body(h, salt, files);
    assert Placed(body, 8192, [0]);
    var cut := img[..8192];
    PrefixFields(img, cut, 1);
    TbsFields(cut, salt, 1);
    CutFilePasses(h, salt, body, img, cut, path);
    EntryTableParses(h, decodes, salt, files, 0);
    AllFilesPass(h, decodes, salt, cut, EntryTable(h, salt, files), 0, 1);
    assert MAGIC1[7] != MAGIC2[7];
  }

  lemma CutFilePasses(h: Hash, salt: seq<byte>, body: seq<byte>, img: seq<byte>, cut: seq<byte>, path: seq<byte>)
    requires Digests(h) && |img| == |body| >= 8192 && img[HEADER..] == body[HEADER..] && cut == img[..8192]
    requires Placed(body, 4096, Concat(LeavesOf(h, salt, [0])))
    ensures FileOk(h, salt, cut, EntryOf(h, salt, [File(path, [0])], 0))
  {
    OneFileLayout(path);
    var table := Concat(LeavesOf(h, salt, [0]));
    var e := EntryOf(h, salt, [File(path, [0])], 0);
    LeavesSized(h, salt, [0]);
    ConcatSize(LeavesOf(h, salt, [0]), DIGEST);
    PlacedPastHeader(body, img, 4096, table);
    assert Placed(cut, 4096, table);
    PlacedLeaves(h, salt, cut, [0], 4096);
    OneZeroByte(h, salt);
    assert ReadPage(cut, e, 0) == [];
    assert LeavesOf(h, salt, [0])[0] == Leaf(h, salt, PageOf([0], 0));
    assert PageOf([0], 0) == [0];
  }

  // ---------- the loops ----------

  function Plus(bad: nat, r: Result<nat, Error>): Result<nat, Error> {
    match r
    case Ok(more) => Ok(bad + more)
    case Err(x) => Err(x)
  }

  /** One file's pages, counted as `check` counts them. */
  method CheckFile(h: Hash, salt: seq<byte>, img: seq<byte>, e: Entry) returns (ok: bool)
    ensures ok <==> FileOk(h, salt, img, e)
  {
    hide PageCount, ReadPage, ReadLeaves, RootOf, Leaf;
    var n := PageCount(e.size);
    var leaves := ReadLeaves(img, e.leavesOff, n);
    var root := ComputeRoot(h, salt, leaves);
    var pagesOk := 0;
    for j := 0 to n
      invariant pagesOk <= j
      invariant pagesOk == j <==> forall k :: 0 <= k < j ==> Leaf(h, salt, ReadPage(img, e, k)) == leaves[k]
    {
      if Leaf(h, salt, ReadPage(img, e, j)) == leaves[j] {
        pagesOk := pagesOk + 1;
      }
    }
    ok := root == e.root && pagesOk == n;
  }

  method CheckImage(h: Hash, decodes: seq<byte> -> bool, verify: (seq<byte>, seq<byte>) -> bool, img: seq<byte>)
    returns (r: Result<nat, Error>)
    ensures r == Check(h, decodes, verify, img)
  {
    hide FileOk, ParseEntry;
    var magic := Slice(img, 0, 8);
    if magic == MAGIC1 {
      return Err(UnsignedV1);
    }
    if magic != MAGIC2 {
      return Err(BadMagic);
    }
    if |img| < 12 {
      return Err(Truncated);
    }
    var count := CountOf(img);
    if !verify(Tbs(img, count), Slice(img, 48, HEADER)) {
      return Err(BadSignature);
    }
    var salt := Slice(img, 16, 48);
    var ents := Slice(img, HEADER, HEADER + ENTRY * count);
    var bad := 0;
    var i := 0;
    while i < count
      invariant 0 <= i <= count
      invariant Plus(bad, CheckFrom(h, decodes, salt, img, ents, i, count)) == CheckFrom(h, decodes, salt, img, ents, 0, count)
    {
      var e := ParseEntry(decodes, ents, i);
      if e.Err? {
        return Err(e.error);
      }
      var ok := CheckFile(h, salt, img, e.value);
      if !ok {
        bad := bad + 1;
      }
      i := i + 1;
    }
    return Ok(bad);
  }

  /** The running offset of the build loops. */
  method AssignOffsets(start: nat, sizes: seq<nat>) returns (offs: seq<nat>, end: nat)
    ensures offs == Offsets(start, sizes) && end == EndOf(start, sizes)
  {
    offs, end := [], start;
    for i := 0 to |sizes|
      invariant offs + Offsets(end, sizes[i..]) == Offsets(start, sizes)
      invariant EndOf(end, sizes[i..]) == EndOf(start, sizes)
    {
      assert sizes[i..][1..] == sizes[i + 1..];
      offs := offs + [end];
      end := Align(end + sizes[i]);
    }
  }

  method WriteParts(img0: seq<byte>, offs: seq<nat>, parts: seq<seq<byte>>) returns (img: seq<byte>)
    requires |offs| == |parts|
    ensures img == WriteAll(img0, offs, parts)
  {
    hide WriteAt;
    img := img0;
    for i := 0 to |parts|
      invariant WriteAll(img, offs[i..], parts[i..]) == WriteAll(img0, offs, parts)
    {
      assert offs[i..][1..] == offs[i + 1..] && parts[i..][1..] == parts[i + 1..];
      img := WriteAt(img, offs[i], parts[i]);
    }
  }

  lemma {:induction false} ConcatSnoc(parts: seq<seq<byte>>, p: seq<byte>)
    ensures Concat(parts + [p]) == Concat(parts) + p
  {
    if parts == [] {
      assert [p][1..] == [];
    } else {
      ConcatSnoc(parts[1..], p);
      assert (parts + [p])[1..] == parts[1..] + [p];
    }
  }

  lemma PartsNext(parts: seq<seq<byte>>, i: nat)
    requires i < |parts|
    ensures Concat(parts[..i + 1]) == Concat(parts[..i]) + parts[i]
  {
    ConcatSnoc(parts[..i], parts[i]);
    assert parts[..i] + [parts[i]] == parts[..i + 1];
  }

  lemma EntryPart(h: Hash, salt: seq<byte>, files: seq<File>, i: nat)
    requires Digests(h) && PathsOk(files) && i < |files|
    ensures var root := RootOf(h, salt, LeavesOf(h, salt, files[i].data));
            |root| == DIGEST
            && EntryParts(h, salt, files)[i] ==
               EntryBytes(files[i].path, Entry(DataOffs(files)[i], |files[i].data|, TableOffs(files)[i], root))
  {
    hide RootOf, LeavesOf, DataOffs, TableOffs, EntryBytes;
    EntryRootSize(h, salt, files, i);
  }

  method BuildManifest(h: Hash, salt: seq<byte>, files: seq<File>, leafTables: seq<seq<seq<byte>>>,
                       leafOffs: seq<nat>, dataOffs: seq<nat>) returns (img: seq<byte>)
    requires Digests(h) && PathsOk(files) && |leafTables| == |files|
    requires forall i :: 0 <= i < |files| ==> leafTables[i] == LeavesOf(h, salt, files[i].data)
    requires leafOffs == TableOffs(files) && dataOffs == DataOffs(files)
    ensures img == ManifestOf(h, salt, files)
  {
    hide Head, Concat, LeavesOf, RootOf, TableOffs, DataOffs, EntryBytes, EntryParts, EntryOf;
    ghost var parts := EntryParts(h, salt, files);
    img := Head(salt, |files|) + Zeros(64);
    ConcatNothing();
    for i := 0 to |files|
      invariant img == Head(salt, |files|) + Zeros(64) + Concat(parts[..i])
    {
      var root := ComputeRoot(h, salt, leafTables[i]);
      EntryPart(h, salt, files, i);
      PartsNext(parts, i);
      img := img + EntryBytes(files[i].path, Entry(dataOffs[i], |files[i].data|, leafOffs[i], root));
    }
    assert parts[..|files|] == parts;
  }

  lemma ConcatNothing()
    ensures Concat([]) == []
  {
  }

  method ShortPaths(files: seq<File>) returns (ok: bool)
    ensures ok <==> PathsOk(files)
  {
    for i := 0 to |files|
      invariant forall k :: 0 <= k < i ==> |files[k].path| < PATHLEN
    {
      if |files[i].path| > PATHLEN - 1 {
        return false;
      }
    }
    return true;
  }

  method HashLeaves(h: Hash, salt: seq<byte>, files: seq<File>)
    returns (leafTables: seq<seq<seq<byte>>>, tables: seq<seq<byte>>)
    ensures |leafTables| == |files| && tables == Tables(h, salt, files)
    ensures forall i :: 0 <= i < |files| ==> leafTables[i] == LeavesOf(h, salt, files[i].data)
  {
    hide LeavesOf, Concat;
    leafTables, tables := [], [];
    for i := 0 to |files|
      invariant |leafTables| == |tables| == i
      invariant forall k :: 0 <= k < i ==>
                  leafTables[k] == LeavesOf(h, salt, files[k].data) && tables[k] == Concat(leafTables[k])
    {
      var leaves := LeavesOf(h, salt, files[i].data);
      leafTables := leafTables + [leaves];
      tables := tables + [Concat(leaves)];
    }
  }

  method BuildImage(h: Hash, sign: seq<byte> -> seq<byte>, salt: seq<byte>, files: seq<File>)
    returns (r: Result<seq<byte>, Error>)
    requires Digests(h)
    ensures r == Build(h, sign, salt, files)
  {
    hide LeavesOf, Offsets, EndOf, WriteAll, WriteAt, Tbs, Pow256, Head, Align, EntryTable, PageCount, NumbersOk,
         Tables, Sizes, TableSizes, ManifestOf, PathsOk;
    var short := ShortPaths(files);
    if !short {
      return Err(PathTooLong);
    }
    var leafTables, tables := HashLeaves(h, salt, files);
    var leafOffs, off := AssignOffsets(Align(HEADER + ENTRY * |files|), TableSizes(files));
    var dataOffs, _ := AssignOffsets(off, Sizes(Datas(files)));
    if !NumbersOk(files) {
      return Err(Overflow);
    }
    var img := BuildManifest(h, salt, files, leafTables, leafOffs, dataOffs);
    img := WriteParts(img, leafOffs, tables);
    img := WriteParts(img, dataOffs, Datas(files));
    var tell := HEADER;
    if files != [] {
      tell := dataOffs[|files| - 1] + |files[|files| - 1].data|;
    }
    var end := Align(tell);
    img := if |img| < end then img + Zeros(end - |img|) else img[..end];
    assert img == Body(h, salt, files);
    return Ok(WriteAt(img, 48, sign(Tbs(img, |files|))));
  }
}
