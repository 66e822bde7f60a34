/** UTF-8, as far as an editor needs it: the bytes of a string and its character
    boundaries. */
module Utf8 {
  import opened Common

  function EncodeChar(c: char): (b: seq<byte>)
    ensures 1 <= |b| <= 4
  {
    var n := c as int;
    if n < 0x80 then [n]
    else if n < 0x800 then [0xC0 + n / 64, 0x80 + n % 64]
    else if n < 0x1_0000 then [0xE0 + n / 4096, 0x80 + n / 64 % 64, 0x80 + n % 64]
    else [0xF0 + n / 262144, 0x80 + n / 4096 % 64, 0x80 + n / 64 % 64, 0x80 + n % 64]
  }

  function Encode(s: string): seq<byte> {
    if s == "" then [] else EncodeChar(s[0]) + Encode(s[1..])
  }

  /** A byte that starts a character. */
  predicate Lead(b: byte) {
    b < 0x80 || 0xC0 <= b
  }

  /** How long the character is that starts with this byte. */
  function WidthOf(b: byte): (w: nat)
    ensures 1 <= w <= 4
  {
    if b < 0x80 then 1 else if b < 0xE0 then 2 else if b < 0xF0 then 3 else 4
  }

  /** Position i of the bytes is between characters. */
  predicate Boundary(line: seq<byte>, i: nat) {
    i == |line| || (i < |line| && Lead(line[i]))
  }

  lemma CharShape(c: char)
    ensures Lead(EncodeChar(c)[0]) && WidthOf(EncodeChar(c)[0]) == |EncodeChar(c)|
    ensures forall i :: 1 <= i < |EncodeChar(c)| ==> !Lead(EncodeChar(c)[i])
  {
  }

  lemma {:induction false} EncodeAppend(a: string, b: string)
    ensures Encode(a + b) == Encode(a) + Encode(b)
  {
    hide EncodeChar;
    if a == "" {
      assert a + b == b;
    } else {
      EncodeAppend(a[1..], b);
      assert (a + b)[1..] == a[1..] + b;
    }
  }

  lemma EncodeOne(c: char)
    ensures Encode([c]) == EncodeChar(c)
  {
  }

  /** Cutting the text at a character cuts its bytes at a boundary. */
  lemma EncodeSplit(s: string, k: nat)
    requires k <= |s|
    ensures Encode(s) == Encode(s[..k]) + Encode(s[k..])
    ensures |Encode(s[..k])| <= |Encode(s)| && Boundary(Encode(s), |Encode(s[..k])|)
  {
    EncodeAppend(s[..k], s[k..]);
    assert s[..k] + s[k..] == s;
    if k < |s| {
      CharShape(s[k]);
      assert Encode(s[k..]) == EncodeChar(s[k]) + Encode(s[k..][1..]);
    } else {
      assert s[k..] == "";
    }
  }

  /** The byte position of character `col`, walking the lead bytes; the end when there is
      no such character. */
  method ByteAt(line: seq<byte>, col: nat, ghost s: string) returns (i: nat)
    requires line == Encode(s)
    ensures i <= |line| && Boundary(line, i)
    ensures i == |Encode(s[..Min(col, |s|)])|
  {
    i := 0;
    var k := 0;
    assert s[..0] == "";
    while k < col && i < |line|
      invariant 0 <= k <= Min(col, |s|)
      invariant i == |Encode(s[..k])| <= |line| && Boundary(line, i)
      invariant i == |line| ==> k == |s|
    {
      EndOfBytes(s, k);
      CharShape(s[k]);
      NextChar(s, k);
      i := i + WidthOf(line[i]);
      k := k + 1;
      EncodeSplit(s, k);
      EndOfBytes(s, k);
    }
    EndOfBytes(s, k);
  }

  lemma NextChar(s: string, k: nat)
    requires k < |s|
    ensures |Encode(s[..k + 1])| == |Encode(s[..k])| + |EncodeChar(s[k])|
    ensures |Encode(s[..k])| < |Encode(s)| && Encode(s)[|Encode(s[..k])|] == EncodeChar(s[k])[0]
  {
    EncodeSplit(s, k);
    EncodeAppend(s[..k], [s[k]]);
    EncodeOne(s[k]);
    assert s[..k] + [s[k]] == s[..k + 1];
    assert Encode(s[k..]) == EncodeChar(s[k]) + Encode(s[k..][1..]);
  }

  lemma EndOfBytes(s: string, k: nat)
    requires k <= |s|
    ensures |Encode(s[..k])| == |Encode(s)| <==> k == |s|
  {
    if k < |s| {
      NextChar(s, k);
    } else {
      assert s[..k] == s;
    }
  }

  method CharCount(line: seq<byte>, ghost s: string) returns (n: nat)
    requires line == Encode(s)
    ensures n == |s|
  {
    n := 0;
    var i := 0;
    assert s[..0] == "";
    while i < |line|
      invariant 0 <= n <= |s| && i == |Encode(s[..n])| <= |line|
      decreases |line| - i
    {
      EndOfBytes(s, n);
      CharShape(s[n]);
      NextChar(s, n);
      i := i + WidthOf(line[i]);
      n := n + 1;
      EncodeSplit(s, n);
    }
    EndOfBytes(s, n);
  }
}

/** The editing buffer as lines, row and column, and as one string with one offset. */
module Editing {
  import opened Common
  import opened Strings

  datatype Key =
    | Char(c: char) | Enter | Backspace | Tab | Left | Right | Up | Down
    | Home | End | PageUp | PageDown | Delete | Esc | Ctrl(c: char)

  datatype Ed = Ed(lines: seq<string>, row: nat, col: nat, dirty: bool)

  ghost predicate OneLine(s: string) {
    '\n' !in s
  }

  /** The cursor is on a line and not past its end. */
  ghost predicate InRange(e: Ed) {
    e.row < |e.lines| && e.col <= |e.lines[e.row]|
  }

  ghost predicate Inv(e: Ed) {
    InRange(e) && forall i :: 0 <= i < |e.lines| ==> OneLine(e.lines[i])
  }

  // ---------- one key on lines, row and column ----------

  ghost function Clamp(e: Ed): Ed {
    if e.row < |e.lines| && e.col > |e.lines[e.row]| then e.(col := |e.lines[e.row]|) else e
  }

  ghost function InsertText(e: Ed, s: string): Ed
    requires InRange(e)
  {
    var line := e.lines[e.row];
    e.(lines := e.lines[e.row := line[..e.col] + s + line[e.col..]], col := e.col + |s|, dirty := true)
  }

  ghost function SplitLine(e: Ed): Ed
    requires InRange(e)
  {
    var line := e.lines[e.row];
    e.(lines := e.lines[..e.row] + [line[..e.col], line[e.col..]] + e.lines[e.row + 1..],
       row := e.row + 1, col := 0, dirty := true)
  }

  /** Line r + 1 moves to the end of line r. */
  ghost function JoinLines(lines: seq<string>, r: nat): seq<string>
    requires r + 1 < |lines|
  {
    lines[..r] + [lines[r] + lines[r + 1]] + lines[r + 2..]
  }

  ghost function Step(e: Ed, k: Key): (Ed, bool)
    requires InRange(e)
  {
    var line := e.lines[e.row];
    match k
    case Char(c) => (InsertText(e, [c]), true)
    case Enter => (SplitLine(e), true)
    case Tab => (InsertText(e, "    "), true)
    case Backspace =>
      if e.col > 0 then
        (e.(lines := e.lines[e.row := line[..e.col - 1] + line[e.col..]], col := e.col - 1, dirty := true), true)
      else if e.row > 0 then
        (e.(lines := JoinLines(e.lines, e.row - 1), row := e.row - 1, col := |e.lines[e.row - 1]|, dirty := true), true)
      else (e, false)
    case Delete =>
      if e.col < |line| then
        (e.(lines := e.lines[e.row := line[..e.col] + line[e.col + 1..]], dirty := true), true)
      else if e.row + 1 < |e.lines| then
        (e.(lines := JoinLines(e.lines, e.row), dirty := true), true)
      else (e, false)
    case Left =>
      if e.col > 0 then (e.(col := e.col - 1), true)
      else if e.row > 0 then (e.(row := e.row - 1, col := |e.lines[e.row - 1]|), true)
      else (e, false)
    case Right =>
      if e.col < |line| then (e.(col := e.col + 1), true)
      else if e.row + 1 < |e.lines| then (e.(row := e.row + 1, col := 0), true)
      else (e, false)
    case Up => if e.row == 0 then (e, false) else (Clamp(e.(row := e.row - 1)), true)
    case Down => if e.row + 1 >= |e.lines| then (e, false) else (Clamp(e.(row := e.row + 1)), true)
    case Home => (e.(col := 0), true)
    case End => (e.(col := |line|), true)
    case PageUp => (Clamp(e.(row := if e.row < 12 then 0 else e.row - 12)), true)
    case PageDown => (Clamp(e.(row := Min(e.row + 12, |e.lines| - 1))), true)
    case Esc => (e, false)
    case Ctrl(_) => (e, false)
  }

  /** What the callers pass on: a typed newline arrives as Enter. */
  predicate Typed(k: Key) {
    k.Char? ==> k.c != '\n'
  }

  /** A key keeps lines free of newlines, and row and column in range, if and only if it is not a
      newline typed as a character. */
  lemma StepKeepsInv(e: Ed, k: Key)
    requires Inv(e)
    ensures Inv(Step(e, k).0) <==> Typed(k)
  {
    var line := e.lines[e.row];
    assert e.row < |e.lines| && e.col <= |line| && OneLine(line);
    hide Inv, OneLine, InsertText, JoinLines, SplitLine;
    match k {
      case Char(c) =>
        if c == '\n' {
          NewlineBreaksInv(e);
        } else {
          TypedIsOneLine(c);
          InsertKeepsInv(e, [c]);
        }
      case Tab =>
        TypedIsOneLine(' ');
        InsertKeepsInv(e, "    ");
      case Enter =>
        SplitKeepsInv(e);
      case Backspace =>
        if e.col > 0 {
          CutKeepsInv(e, e.col - 1);
        } else if e.row > 0 {
          JoinKeepsInv(e, e.row - 1);
        }
      case Delete =>
        if e.col < |line| {
          CutKeepsInv(e, e.col);
        } else if e.row + 1 < |e.lines| {
          JoinKeepsInv(e, e.row);
        }
      case _ =>
        MoveKeepsInv(e, k);
    }
  }

  /** Every key keeps the cursor in range. */
  lemma StepInRange(e: Ed, k: Key)
    requires InRange(e)
    ensures InRange(Step(e, k).0)
  {
  }

  lemma TypedIsOneLine(c: char)
    requires c != '\n'
    ensures OneLine([c]) && OneLine("    ")
  {
  }

  lemma NewlineBreaksInv(e: Ed)
    requires Inv(e)
    ensures !Inv(InsertText(e, "\n"))
  {
    var g := InsertText(e, "\n");
    assert g.lines[e.row][e.col] == '\n';
  }

  lemma InsertKeepsInv(e: Ed, x: string)
    requires Inv(e) && OneLine(x)
    ensures Inv(InsertText(e, x))
  {
  }

  lemma CutKeepsInv(e: Ed, c: nat)
    requires Inv(e) && c < |e.lines[e.row]| && c <= e.col <= c + 1
    ensures var line := e.lines[e.row];
            Inv(e.(lines := e.lines[e.row := line[..c] + line[c + 1..]], col := c, dirty := true))
  {
  }

  lemma SplitKeepsInv(e: Ed)
    requires Inv(e)
    ensures Inv(SplitLine(e))
  {
  }

  lemma JoinKeepsInv(e: Ed, r: nat)
    requires Inv(e) && r + 1 < |e.lines|
    ensures Inv(e.(lines := JoinLines(e.lines, r), row := r, col := |e.lines[r]|, dirty := true))
  {
  }

  lemma MoveKeepsInv(e: Ed, k: Key)
    requires Inv(e) && !(k.Char? || k.Enter? || k.Tab? || k.Backspace? || k.Delete?)
    ensures Inv(Step(e, k).0)
  {
    hide OneLine;
  }

  lemma RefusedMeansUnchanged(e: Ed, k: Key)
    requires InRange(e)
    ensures !Step(e, k).1 ==> Step(e, k).0 == e
  {
  }

  // ---------- the flat text ----------

  ghost function Join(lines: seq<string>): string
    requires |lines| > 0
  {
    if |lines| == 1 then lines[0] else lines[0] + "\n" + Join(lines[1..])
  }

  /** The lines above row r, each with its newline. */
  ghost function Above(lines: seq<string>, r: nat): string
    requires r <= |lines|
  {
    if r == 0 then "" else lines[0] + "\n" + Above(lines[1..], r - 1)
  }

  /** The lines below row r, each after its newline. */
  ghost function Below(lines: seq<string>, r: nat): string
    requires r < |lines|
  {
    if r + 1 == |lines| then "" else "\n" + Join(lines[r + 1..])
  }

  datatype Flat = Flat(text: string, cur: nat)

  ghost function Flatten(e: Ed): Flat
    requires e.row < |e.lines|
  {
    Flat(Join(e.lines), |Above(e.lines, e.row)| + e.col)
  }

  lemma Regroup(x: string, a: string, l: string, b: string)
    ensures x + (a + l + b) == (x + a) + l + b
  {
  }

  lemma {:induction false} JoinSplitsAt(lines: seq<string>, r: nat)
    requires r < |lines|
    ensures Join(lines) == Above(lines, r) + lines[r] + Below(lines, r)
  {
    if r > 0 {
      var rest := lines[1..];
      JoinSplitsAt(rest, r - 1);
      assert rest[r..] == lines[r + 1..];
      Regroup(lines[0] + "\n", Above(rest, r - 1), rest[r - 1], Below(rest, r - 1));
    } else {
      Regroup("", "", lines[0], Below(lines, 0));
      if |lines| > 1 {
        assert lines[0] + ("\n" + Join(lines[1..])) == lines[0] + "\n" + Join(lines[1..]);
      }
    }
  }

  /** Changing the lines from r on leaves what is above them alone. */
  lemma {:induction false} AboveDepends(a: seq<string>, b: seq<string>, r: nat)
    requires r <= |a| && r <= |b| && a[..r] == b[..r]
    ensures Above(a, r) == Above(b, r)
  {
    if r > 0 {
      assert a[0] == a[..r][0] == b[..r][0] == b[0];
      assert a[1..][..r - 1] == a[..r][1..] == b[..r][1..] == b[1..][..r - 1];
      AboveDepends(a[1..], b[1..], r - 1);
    }
  }

  lemma {:induction false} AboveNext(lines: seq<string>, r: nat)
    requires r < |lines|
    ensures Above(lines, r + 1) == Above(lines, r) + lines[r] + "\n"
  {
    if r > 0 {
      AboveNext(lines[1..], r - 1);
    } else {
      assert Above(lines[1..], 0) == "";
    }
  }

  lemma BelowDepends(a: seq<string>, i: nat, b: seq<string>, j: nat)
    requires i < |a| && j < |b| && a[i + 1..] == b[j + 1..]
    ensures Below(a, i) == Below(b, j)
  {
  }

  // ---------- one key on the flat text ----------

  /** The start of the line position p is on, and its end. */
  ghost function LineStart(t: string, p: nat): (q: nat)
    requires p <= |t|
    ensures q <= p
  {
    if p == 0 || t[p - 1] == '\n' then p else LineStart(t, p - 1)
  }

  ghost function LineEnd(t: string, p: nat): (q: nat)
    requires p <= |t|
    ensures p <= q <= |t|
    decreases |t| - p
  {
    if p == |t| || t[p] == '\n' then p else LineEnd(t, p + 1)
  }

  /** The start of the line n lines above, or below, the line starting at p; the first or
      last line when there are fewer. */
  ghost function StartAbove(t: string, p: nat, n: nat): (q: nat)
    requires p <= |t|
    ensures q <= |t|
    decreases n
  {
    if n == 0 || p == 0 then p else StartAbove(t, LineStart(t, p - 1), n - 1)
  }

  ghost function StartBelow(t: string, p: nat, n: nat): (q: nat)
    requires p <= |t|
    ensures q <= |t|
    decreases n
  {
    if n == 0 || LineEnd(t, p) == |t| then p else StartBelow(t, LineEnd(t, p) + 1, n - 1)
  }

  /** Column `col` of the line starting at p, or the line's end. */
  ghost function OnLine(t: string, p: nat, col: nat): nat
    requires p <= |t|
  {
    p + Min(col, LineEnd(t, p) - p)
  }

  ghost function Insert(f: Flat, s: string): Flat
    requires f.cur <= |f.text|
  {
    Flat(f.text[..f.cur] + s + f.text[f.cur..], f.cur + |s|)
  }

  ghost function FlatStep(f: Flat, k: Key): (Flat, bool)
    requires f.cur <= |f.text|
  {
    var t, p := f.text, f.cur;
    var start := LineStart(t, p);
    match k
    case Char(c) => (Insert(f, [c]), true)
    case Enter => (Insert(f, "\n"), true)
    case Tab => (Insert(f, "    "), true)
    case Backspace => if p == 0 then (f, false) else (Flat(t[..p - 1] + t[p..], p - 1), true)
    case Delete => if p == |t| then (f, false) else (Flat(t[..p] + t[p + 1..], p), true)
    case Left => if p == 0 then (f, false) else (Flat(t, p - 1), true)
    case Right => if p == |t| then (f, false) else (Flat(t, p + 1), true)
    case Up => if start == 0 then (f, false) else (Flat(t, OnLine(t, StartAbove(t, start, 1), p - start)), true)
    case Down =>
      if LineEnd(t, p) == |t| then (f, false) else (Flat(t, OnLine(t, StartBelow(t, start, 1), p - start)), true)
    case Home => (Flat(t, start), true)
    case End => (Flat(t, LineEnd(t, p)), true)
    case PageUp => (Flat(t, OnLine(t, StartAbove(t, start, 12), p - start)), true)
    case PageDown => (Flat(t, OnLine(t, StartBelow(t, start, 12), p - start)), true)
    case Esc => (f, false)
    case Ctrl(_) => (f, false)
  }

  // ---------- lines found in the flat text ----------

  lemma {:induction false} ScanBack(t: string, q: nat, p: nat)
    requires q <= p <= |t| && (q == 0 || t[q - 1] == '\n') && forall i :: q <= i < p ==> t[i] != '\n'
    ensures LineStart(t, p) == q
  {
    if q < p {
      ScanBack(t, q, p - 1);
    }
  }

  lemma {:induction false} ScanForward(t: string, p: nat, q: nat)
    requires p <= q <= |t| && (q == |t| || t[q] == '\n') && forall i :: p <= i < q ==> t[i] != '\n'
    ensures LineEnd(t, p) == q
    decreases q - p
  {
    if p < q {
      ScanForward(t, p + 1, q);
    }
  }

  ghost predicate Plain(lines: seq<string>) {
    |lines| > 0 && forall i :: 0 <= i < |lines| ==> OneLine(lines[i])
  }

  lemma LineInTheMiddle(a: string, l: string, b: string, c: nat)
    requires OneLine(l) && c <= |l|
    requires a == "" || a[|a| - 1] == '\n'
    requires b == "" || b[0] == '\n'
    ensures LineStart(a + l + b, |a| + c) == |a|
    ensures LineEnd(a + l + b, |a| + c) == |a| + |l|
  {
    var t := a + l + b;
    assert forall i :: |a| <= i < |a| + |l| ==> t[i] == l[i - |a|];
    ScanBack(t, |a|, |a| + c);
    ScanForward(t, |a| + c, |a| + |l|);
  }

  lemma AboveEnds(lines: seq<string>, r: nat)
    requires 0 < r <= |lines|
    ensures Above(lines, r) != "" && Above(lines, r)[|Above(lines, r)| - 1] == '\n'
  {
  }

  /** Row r of the text is where `Above` says it is. */
  lemma RowInText(lines: seq<string>, r: nat, c: nat)
    requires Plain(lines) && r < |lines| && c <= |lines[r]|
    ensures var start := |Above(lines, r)|;
            && start + |lines[r]| <= |Join(lines)|
            && (start + |lines[r]| == |Join(lines)| <==> r + 1 == |lines|)
            && LineStart(Join(lines), start + c) == start
            && LineEnd(Join(lines), start + c) == start + |lines[r]|
  {
    hide Join, LineStart, LineEnd;
    JoinSplitsAt(lines, r);
    if r > 0 {
      AboveEnds(lines, r);
    }
    LineInTheMiddle(Above(lines, r), lines[r], Below(lines, r), c);
  }

  lemma {:induction false} RowsAbove(lines: seq<string>, r: nat, n: nat)
    requires Plain(lines) && r < |lines|
    ensures |Above(lines, r)| <= |Join(lines)|
    ensures StartAbove(Join(lines), |Above(lines, r)|, n) == |Above(lines, if n <= r then r - n else 0)|
    decreases n
  {
    RowInText(lines, r, 0);
    if n > 0 && r > 0 {
      AboveNext(lines, r - 1);
      RowInText(lines, r - 1, |lines[r - 1]|);
      RowsAbove(lines, r - 1, n - 1);
    }
  }

  lemma {:induction false} RowsBelow(lines: seq<string>, r: nat, n: nat)
    requires Plain(lines) && r < |lines|
    ensures |Above(lines, r)| <= |Join(lines)|
    ensures StartBelow(Join(lines), |Above(lines, r)|, n) == |Above(lines, Min(r + n, |lines| - 1))|
    decreases n
  {
    RowInText(lines, r, 0);
    if n > 0 && r + 1 < |lines| {
      AboveNext(lines, r);
      RowsBelow(lines, r + 1, n - 1);
    }
  }

  lemma MoveRefines(e: Ed, r: nat)
    requires Inv(e) && r < |e.lines|
    ensures Inv(Clamp(e.(row := r)))
    ensures |Above(e.lines, r)| <= |Join(e.lines)|
    ensures Flatten(Clamp(e.(row := r))) == Flat(Join(e.lines), OnLine(Join(e.lines), |Above(e.lines, r)|, e.col))
  {
    RowInText(e.lines, r, 0);
  }

  // ---------- every key refines the flat operation ----------

  lemma InsertRefines(e: Ed, x: string)
    requires Inv(e)
    ensures Flatten(e).cur <= |Flatten(e).text|
    ensures Flatten(InsertText(e, x)) == Insert(Flatten(e), x)
  {
    hide Join, Above, Below;
    var r := e.row;
    var g := InsertText(e, x);
    JoinSplitsAt(e.lines, r);
    JoinSplitsAt(g.lines, r);
    AboveDepends(e.lines, g.lines, r);
    BelowDepends(e.lines, r, g.lines, r);
    CutAndInsert(Above(e.lines, r), e.lines[r], Below(e.lines, r), e.col, x);
  }

  lemma CutAndInsert(a: string, l: string, b: string, c: nat, x: string)
    requires c <= |l|
    ensures (a + l + b)[..|a| + c] + x + (a + l + b)[|a| + c..] == a + (l[..c] + x + l[c..]) + b
  {
  }

  lemma ReplaceLine(e: Ed, line: string)
    requires Inv(e)
    ensures Join(e.lines[e.row := line]) == Above(e.lines, e.row) + line + Below(e.lines, e.row)
    ensures Above(e.lines[e.row := line], e.row) == Above(e.lines, e.row)
  {
    hide Join, Above, Below;
    var g := e.lines[e.row := line];
    JoinSplitsAt(g, e.row);
    AboveDepends(e.lines, g, e.row);
    BelowDepends(e.lines, e.row, g, e.row);
  }

  lemma CutOne(a: string, l: string, b: string, c: nat)
    requires c < |l|
    ensures (a + l + b)[..|a| + c] + (a + l + b)[|a| + c + 1..] == a + (l[..c] + l[c + 1..]) + b
  {
  }

  lemma SplitRefines(e: Ed)
    requires Inv(e)
    ensures Inv(SplitLine(e)) && Flatten(e).cur <= |Flatten(e).text|
    ensures Flatten(SplitLine(e)) == Insert(Flatten(e), "\n")
  {
    hide Join, Above, Below;
    var r := e.row;
    var line := e.lines[r];
    var g := SplitLine(e).lines;
    assert g[r] == line[..e.col] && g[r + 1] == line[e.col..] && g[..r] == e.lines[..r];
    JoinSplitsAt(e.lines, r);
    JoinSplitsAt(g, r + 1);
    AboveNext(g, r);
    AboveDepends(e.lines, g, r);
    assert g[r + 2..] == e.lines[r + 1..];
    BelowDepends(e.lines, r, g, r + 1);
    CutAndInsert(Above(e.lines, r), line, Below(e.lines, r), e.col, "\n");
    var a, b := Above(e.lines, r), Below(e.lines, r);
    assert a + line[..e.col] + "\n" + line[e.col..] + b == a + (line[..e.col] + "\n" + line[e.col..]) + b;
  }

  /** Joining two rows removes the newline between them. */
  lemma JoinRefines(lines: seq<string>, r: nat)
    requires r + 1 < |lines|
    ensures var p := |Above(lines, r)| + |lines[r]|;
            && p + 1 == |Above(lines, r + 1)| <= |Join(lines)|
            && Join(JoinLines(lines, r)) == Join(lines)[..p] + Join(lines)[p + 1..]
            && Above(JoinLines(lines, r), r) == Above(lines, r)
  {
    hide Join, Above, Below;
    var g := JoinLines(lines, r);
    assert g[r] == lines[r] + lines[r + 1] && g[..r] == lines[..r] && g[r + 1..] == lines[r + 2..];
    JoinSplitsAt(lines, r);
    JoinSplitsAt(lines, r + 1);
    JoinSplitsAt(g, r);
    AboveNext(lines, r);
    AboveDepends(lines, g, r);
    BelowDepends(lines, r + 1, g, r);
    DropNewline(Above(lines, r), lines[r], lines[r + 1], Below(lines, r + 1));
  }

  lemma DropNewline(a: string, l: string, m: string, b: string)
    ensures var t := (a + l + "\n") + m + b;
            t[..|a| + |l|] + t[|a| + |l| + 1..] == a + (l + m) + b
  {
  }

  /** Where the cursor is in the flat text. */
  lemma CursorFacts(e: Ed)
    requires Inv(e)
    ensures var t, p, start := Join(e.lines), Flatten(e).cur, |Above(e.lines, e.row)|;
            && p == start + e.col <= |t|
            && (p == 0 <==> e.row == 0 && e.col == 0)
            && (start == 0 <==> e.row == 0)
            && (p == |t| <==> e.row + 1 == |e.lines| && e.col == |e.lines[e.row]|)
            && LineStart(t, p) == start && LineEnd(t, p) == start + |e.lines[e.row]|
            && (LineEnd(t, p) == |t| <==> e.row + 1 == |e.lines|)
    ensures e.row > 0 ==> |Above(e.lines, e.row)| == |Above(e.lines, e.row - 1)| + |e.lines[e.row - 1]| + 1
    ensures |Above(e.lines, e.row + 1)| == |Above(e.lines, e.row)| + |e.lines[e.row]| + 1
  {
    RowInText(e.lines, e.row, e.col);
    if e.row > 0 {
      AboveNext(e.lines, e.row - 1);
    }
    AboveNext(e.lines, e.row);
  }

  /** What it means for a key to do on lines what it does on the flat text. */
  ghost predicate Refines(e: Ed, k: Key)
    requires Inv(e)
  {
    var (g, moved) := Step(e, k);
    var f := Flatten(e);
    g.row < |g.lines| && f.cur <= |f.text| && (Flatten(g), moved) == FlatStep(f, k)
  }

  lemma BackspaceRefines(e: Ed)
    requires Inv(e)
    ensures Refines(e, Backspace)
  {
    hide Join, Above, Below, LineStart, LineEnd, OneLine;
    CursorFacts(e);
    StepKeepsInv(e, Backspace);
    if e.col > 0 {
      var line := e.lines[e.row];
      JoinSplitsAt(e.lines, e.row);
      ReplaceLine(e, line[..e.col - 1] + line[e.col..]);
      CutOne(Above(e.lines, e.row), line, Below(e.lines, e.row), e.col - 1);
    } else if e.row > 0 {
      JoinRefines(e.lines, e.row - 1);
    }
  }

  lemma DeleteRefines(e: Ed)
    requires Inv(e)
    ensures Refines(e, Delete)
  {
    hide Join, Above, Below, LineStart, LineEnd, OneLine;
    CursorFacts(e);
    StepKeepsInv(e, Delete);
    if e.col < |e.lines[e.row]| {
      var line := e.lines[e.row];
      JoinSplitsAt(e.lines, e.row);
      ReplaceLine(e, line[..e.col] + line[e.col + 1..]);
      CutOne(Above(e.lines, e.row), line, Below(e.lines, e.row), e.col);
    } else if e.row + 1 < |e.lines| {
      JoinRefines(e.lines, e.row);
    }
  }

  lemma StepsRefine(e: Ed, k: Key)
    requires Inv(e) && k in {Left, Right, Home, End}
    ensures Refines(e, k)
  {
    hide Join, Above, LineStart, LineEnd, OneLine;
    CursorFacts(e);
  }

  lemma VerticalMovesRefine(e: Ed, k: Key)
    requires Inv(e) && k in {Up, Down, PageUp, PageDown}
    ensures Refines(e, k)
  {
    hide Join, Above, LineStart, LineEnd, OneLine, StartAbove, StartBelow, OnLine, Clamp;
    CursorFacts(e);
    var n := if k in {Up, Down} then 1 else 12;
    RowsAbove(e.lines, e.row, n);
    RowsBelow(e.lines, e.row, n);
    MoveRefines(e, if n <= e.row then e.row - n else 0);
    MoveRefines(e, Min(e.row + n, |e.lines| - 1));
  }

  lemma NothingRefines(e: Ed, k: Key)
    requires Inv(e) && (k.Esc? || k.Ctrl?)
    ensures Refines(e, k)
  {
    CursorFacts(e);
  }

  /** Every key on lines, row and column is the matching operation on the flat text with
      one offset, with the same answer whether anything was done; the buffer is ready for
      the next key if and only if this one was not a newline typed as a character. */
  lemma EveryKeyRefines(e: Ed, k: Key)
    requires Inv(e)
    ensures Refines(e, k)
    ensures Inv(Step(e, k).0) <==> Typed(k)
    ensures !Step(e, k).1 ==> Step(e, k).0 == e
  {
    StepKeepsInv(e, k);
    hide Flatten, LineStart, LineEnd, StartAbove, StartBelow, OnLine, Clamp, JoinLines;
    match k {
      case Char(c) => InsertRefines(e, [c]);
      case Enter => SplitRefines(e);
      case Tab => InsertRefines(e, "    ");
      case Backspace => BackspaceRefines(e);
      case Delete => DeleteRefines(e);
      case Left | Right | Home | End => StepsRefine(e, k);
      case Up | Down | PageUp | PageDown => VerticalMovesRefine(e, k);
      case Esc | Ctrl(_) => NothingRefines(e, k);
    }
  }

  /** Any sequence of keys: the invariant holds and the text and offset are what the flat
      operations give. */
  ghost function Keys(e: Ed, ks: seq<Key>): Ed
    requires Inv(e) && forall i :: 0 <= i < |ks| ==> Typed(ks[i])
    decreases |ks|
  {
    if ks == [] then e else StepKeepsInv(e, ks[0]); Keys(Step(e, ks[0]).0, ks[1..])
  }

  ghost function FlatKeys(f: Flat, ks: seq<Key>): Flat
    decreases |ks|
  {
    if ks == [] || f.cur > |f.text| then f else FlatKeys(FlatStep(f, ks[0]).0, ks[1..])
  }

  lemma {:induction false} EveryRunRefines(e: Ed, ks: seq<Key>)
    requires Inv(e) && forall i :: 0 <= i < |ks| ==> Typed(ks[i])
    ensures Inv(Keys(e, ks)) && Flatten(Keys(e, ks)) == FlatKeys(Flatten(e), ks)
    decreases |ks|
  {
    if ks != [] {
      EveryKeyRefines(e, ks[0]);
      StepKeepsInv(e, ks[0]);
      hide Step, FlatStep, Flatten, Inv;
      EveryRunRefines(Step(e, ks[0]).0, ks[1..]);
    }
  }

  /** The buffer is marked as changed by a key exactly when the key changes the text, and the mark stays. */
  lemma MarkedWhenChanged(e: Ed, k: Key)
    requires Inv(e)
    ensures Step(e, k).0.dirty <==> e.dirty || Flatten(Step(e, k).0).text != Flatten(e).text
  {
    EveryKeyRefines(e, k);
    hide Join, Above, LineStart, LineEnd, StartAbove, StartBelow, OnLine, Clamp, JoinLines;
    var t, u := Flatten(e).text, Flatten(Step(e, k).0).text;
    match k {
      case Char(_) | Enter | Tab => assert |u| > |t|;
      case Backspace | Delete => assert Step(e, k).1 ==> |u| + 1 == |t|;
      case Up | Down | PageUp | PageDown => MoveKeepsText(e, k);
      case _ =>
    }
  }

  lemma MoveKeepsText(e: Ed, k: Key)
    requires Inv(e) && (k.Up? || k.Down? || k.PageUp? || k.PageDown?)
    ensures Step(e, k).0.lines == e.lines && Step(e, k).0.dirty == e.dirty
  {
  }

  /** So after any keys a text that is not as loaded is marked. */
  lemma {:induction false} ChangesAreMarked(e: Ed, ks: seq<Key>)
    requires Inv(e) && forall i :: 0 <= i < |ks| ==> Typed(ks[i])
    ensures Inv(Keys(e, ks))
    ensures e.dirty || Flatten(Keys(e, ks)).text != Flatten(e).text ==> Keys(e, ks).dirty
    decreases |ks|
  {
    if ks != [] {
      MarkedWhenChanged(e, ks[0]);
      StepKeepsInv(e, ks[0]);
      hide Step, Flatten, Inv;
      ChangesAreMarked(Step(e, ks[0]).0, ks[1..]);
    }
  }

  // ---------- keys that undo keys ----------

  lemma CharThenBackspace(e: Ed, c: char)
    requires InRange(e)
    ensures InRange(Step(e, Char(c)).0)
    ensures Step(Step(e, Char(c)).0, Backspace).0 == e.(dirty := true)
  {
    StepInRange(e, Char(c));
    var line := e.lines[e.row];
    var typed := line[..e.col] + [c] + line[e.col..];
    assert typed[..e.col] + typed[e.col + 1..] == line;
  }

  lemma EnterThenBackspace(e: Ed)
    requires InRange(e)
    ensures InRange(Step(e, Enter).0)
    ensures Step(Step(e, Enter).0, Backspace).0 == e.(dirty := true)
  {
    StepInRange(e, Enter);
    var line := e.lines[e.row];
    var g := SplitLine(e).lines;
    assert g[e.row] == line[..e.col] && g[e.row + 1] == line[e.col..];
    assert line[..e.col] + line[e.col..] == line;
    assert JoinLines(g, e.row) == e.lines;
  }

  /** Delete is Right followed by Backspace, except at the end of the text. */
  lemma DeleteIsRightThenBackspace(e: Ed)
    requires Inv(e)
    ensures Inv(Step(e, Right).0)
    ensures Step(e, Right).1 ==> Step(Step(e, Right).0, Backspace).0 == Step(e, Delete).0
    ensures Step(e, Right).1 <==> Flatten(e).cur < |Flatten(e).text|
  {
    CursorFacts(e);
  }

  // ---------- loading and saving ----------

  /** Saving what was loaded gives the text back. */
  lemma {:induction false} JoinSplit(t: string)
    ensures Plain(SplitOn(t, '\n')) && Join(SplitOn(t, '\n')) == t
  {
    if t != "" {
      JoinSplit(t[1..]);
      var rest := SplitOn(t[1..], '\n');
      if t[0] == '\n' {
        assert ([""] + rest)[1..] == rest;
        assert t == "" + "\n" + t[1..];
      } else {
        var lines := [[t[0]] + rest[0]] + rest[1..];
        assert lines[1..] == rest[1..];
        assert t == [t[0]] + t[1..];
        if |rest| > 1 {
          assert [t[0]] + (rest[0] + "\n" + Join(rest[1..])) == [t[0]] + rest[0] + "\n" + Join(rest[1..]);
        }
      }
    }
  }

  /** Loading what was saved gives the lines back. */
  lemma {:induction false} SplitJoin(lines: seq<string>)
    requires Plain(lines)
    ensures SplitOn(Join(lines), '\n') == lines
    decreases |lines|
  {
    if |lines| == 1 {
      SplitNone(lines[0], '\n');
      assert lines == [lines[0]];
    } else {
      SplitJoin(lines[1..]);
      SplitFront(lines[0], '\n', Join(lines[1..]));
      assert lines == [lines[0]] + lines[1..];
    }
  }
}

/** The buffer object: lines as UTF-8 bytes, edited in place at character boundaries. */
module EditorBuffer {
  import opened Common
  import opened Strings
  import opened Utf8
  import opened Editing

  ghost predicate Spelled(lines: seq<seq<byte>>, chars: seq<string>) {
    |lines| == |chars| && forall i :: 0 <= i < |lines| ==> lines[i] == Encode(chars[i])
  }

  function JoinBytes(lines: seq<seq<byte>>): seq<byte>
    requires |lines| > 0
  {
    if |lines| == 1 then lines[0] else lines[0] + [10] + JoinBytes(lines[1..])
  }

  lemma {:induction false} JoinSpells(lines: seq<seq<byte>>, chars: seq<string>)
    requires |lines| > 0 && Spelled(lines, chars)
    ensures JoinBytes(lines) == Encode(Join(chars))
  {
    if |lines| > 1 {
      JoinSpells(lines[1..], chars[1..]);
      EncodeAppend(chars[0] + "\n", Join(chars[1..]));
      EncodeAppend(chars[0], "\n");
      EncodeOne('\n');
    }
  }

  class Buffer {
    var lines: seq<seq<byte>>
    var row: nat
    var col: nat
    var dirty: bool
    ghost var chars: seq<string>

    ghost function Abs(): Ed
      reads this
    {
      Ed(chars, row, col, dirty)
    }

    /** The lines are UTF-8 and the cursor is in range. */
    ghost predicate Ready()
      reads this
    {
      Spelled(lines, chars) && InRange(Abs())
    }

    /** And no line holds a newline. */
    ghost predicate Valid()
      reads this
    {
      Ready() && Inv(Abs())
    }

    constructor ()
      ensures Valid() && Abs() == Ed([""], 0, 0, false)
    {
      lines, row, col, dirty := [[]], 0, 0, false;
      chars := [""];
    }

    /** Split on newlines; the cursor goes to the start. */
    method SetText(t: string)
      modifies this
      ensures Valid() && Abs() == Ed(SplitOn(t, '\n'), 0, 0, false)
      ensures Join(chars) == t
    {
      JoinSplit(t);
      hide Join, SplitOn, Encode;
      var pieces := SplitOn(t, '\n');
      var encoded: seq<seq<byte>> := [];
      for i := 0 to |pieces|
        invariant |encoded| == i && forall k :: 0 <= k < i ==> encoded[k] == Encode(pieces[k])
      {
        encoded := encoded + [Encode(pieces[i])];
      }
      lines, row, col, dirty := encoded, 0, 0, false;
      chars := pieces;
    }

    method Text() returns (b: seq<byte>)
      requires Ready()
      ensures b == Encode(Flatten(Abs()).text)
    {
      JoinSpells(lines, chars);
      b := JoinBytes(lines);
    }

    method Length(r: nat) returns (n: nat)
      requires Ready() && r < |lines|
      ensures n == |chars[r]|
    {
      n := CharCount(lines[r], chars[r]);
    }

    method ClampCol()
      requires Spelled(lines, chars) && row < |lines|
      modifies this`col
      ensures Abs() == Clamp(old(Abs()))
    {
      var len := CharCount(lines[row], chars[row]);
      if col > len {
        col := len;
      }
    }

    /** Replace the characters from column a up to b of the cursor's line by x. */
    method Replace(a: nat, b: nat, x: string)
      requires Spelled(lines, chars) && row < |lines| && a <= b <= |chars[row]|
      modifies this`lines, this`chars
      ensures Spelled(lines, chars)
      ensures chars == old(chars)[row := old(chars[row])[..a] + x + old(chars[row])[b..]]
    {
      hide EncodeChar;
      var line := lines[row];
      ghost var s := chars[row];
      var i := ByteAt(line, a, s);
      var j := ByteAt(line, b, s);
      EncodeSplit(s, a);
      EncodeSplit(s, b);
      SplitOrder(s, a, b);
      EncodeAppend(s[..a] + x, s[b..]);
      EncodeAppend(s[..a], x);
      lines := lines[row := line[..i] + Encode(x) + line[j..]];
      chars := chars[row := s[..a] + x + s[b..]];
    }

    /** Cut the cursor's line at the cursor and put the tail on a line of its own. */
    method SplitHere()
      requires Ready()
      modifies this`lines, this`chars
      ensures Spelled(lines, chars) && chars == SplitLine(old(Abs())).lines
    {
      hide EncodeChar;
      var line := lines[row];
      ghost var s := chars[row];
      var i := ByteAt(line, col, s);
      EncodeSplit(s, col);
      lines := lines[..row] + [line[..i], line[i..]] + lines[row + 1..];
      chars := chars[..row] + [s[..col], s[col..]] + chars[row + 1..];
    }

    /** Move line r + 1 to the end of line r. */
    method JoinAt(r: nat)
      requires Spelled(lines, chars) && r + 1 < |lines|
      modifies this`lines, this`chars
      ensures Spelled(lines, chars) && chars == JoinLines(old(chars), r)
    {
      hide Encode;
      EncodeAppend(chars[r], chars[r + 1]);
      lines := lines[..r] + [lines[r] + lines[r + 1]] + lines[r + 2..];
      chars := JoinLines(chars, r);
    }

    /** Apply one key; the answer says whether a repaint is needed. */
    method HandleKey(k: Key) returns (changed: bool)
      requires Ready()
      modifies this
      ensures Ready() && (old(Valid()) ==> (Valid() <==> Typed(k)))
      ensures (Abs(), changed) == Step(old(Abs()), k)
    {
      ghost var e := Abs();
      StepInRange(e, k);
      if Valid() {
        StepKeepsInv(e, k);
      }
      if k.Char? || k.Enter? || k.Tab? || k.Backspace? || k.Delete? {
        changed := EditKey(k);
      } else {
        changed := MoveKey(k);
      }
    }

    method EditKey(k: Key) returns (changed: bool)
      requires Ready() && (k.Char? || k.Enter? || k.Tab? || k.Backspace? || k.Delete?)
      modifies this
      ensures Spelled(lines, chars)
      ensures (Abs(), changed) == Step(old(Abs()), k)
    {
      match k {
        case Char(c) =>
          Replace(col, col, [c]);
          col := col + 1;
        case Enter =>
          SplitHere();
          row := row + 1;
          col := 0;
        case Tab =>
          Replace(col, col, "    ");
          col := col + 4;
        case Backspace =>
          if col > 0 {
            ghost var s := chars[row];
            assert s[..col - 1] + "" + s[col..] == s[..col - 1] + s[col..];
            Replace(col - 1, col, "");
            col := col - 1;
          } else if row > 0 {
            var len := Length(row - 1);
            JoinAt(row - 1);
            row := row - 1;
            col := len;
          } else {
            return false;
          }
        case Delete =>
          var len := Length(row);
          if col < len {
            ghost var s := chars[row];
            assert s[..col] + "" + s[col + 1..] == s[..col] + s[col + 1..];
            Replace(col, col + 1, "");
          } else if row + 1 < |lines| {
            JoinAt(row);
          } else {
            return false;
          }
      }
      dirty := true;
      return true;
    }

    method MoveKey(k: Key) returns (changed: bool)
      requires Ready() && !(k.Char? || k.Enter? || k.Tab? || k.Backspace? || k.Delete?)
      modifies this`row, this`col
      ensures (Abs(), changed) == Step(old(Abs()), k)
    {
      match k {
        case Left =>
          if col > 0 {
            col := col - 1;
          } else if row > 0 {
            var len := Length(row - 1);
            row := row - 1;
            col := len;
          } else {
            return false;
          }
        case Right =>
          var len := Length(row);
          if col < len {
            col := col + 1;
          } else if row + 1 < |lines| {
            row := row + 1;
            col := 0;
          } else {
            return false;
          }
        case Up =>
          if row == 0 {
            return false;
          }
          row := row - 1;
          ClampCol();
        case Down =>
          if row + 1 >= |lines| {
            return false;
          }
          row := row + 1;
          ClampCol();
        case Home =>
          col := 0;
        case End =>
          col := Length(row);
        case PageUp =>
          row := if row < 12 then 0 else row - 12;
          ClampCol();
        case PageDown =>
          row := Min(row + 12, |lines| - 1);
          ClampCol();
        case Esc | Ctrl(_) =>
          return false;
      }
      return true;
    }
  }

  lemma SplitOrder(s: string, a: nat, b: nat)
    requires a <= b <= |s|
    ensures |Encode(s[..a])| <= |Encode(s[..b])|
  {
    EncodeAppend(s[..a], s[a..b]);
    assert s[..a] + s[a..b] == s[..b];
  }
}
