/** Text operations of the standard library that the models use, with their laws. */
module Strings {
  import opened Common

  // ---------- splitting ----------

  /** The pieces between occurrences of `sep`; always at least one. */
  function SplitOn(t: string, sep: char): (pieces: seq<string>)
    ensures |pieces| > 0
  {
    if t == "" then [""]
    else
      var rest := SplitOn(t[1..], sep);
      if t[0] == sep then [""] + rest else [[t[0]] + rest[0]] + rest[1..]
  }

  lemma {:induction false} SplitNone(s: string, sep: char)
    requires sep !in s
    ensures SplitOn(s, sep) == [s]
  {
    if s != "" {
      SplitNone(s[1..], sep);
      assert [s[0]] + s[1..] == s;
    }
  }

  lemma {:induction false} SplitFront(s: string, sep: char, t: string)
    requires sep !in s
    ensures SplitOn(s + [sep] + t, sep) == [s] + SplitOn(t, sep)
  {
    if s == "" {
      assert ("" + [sep] + t)[1..] == t;
    } else {
      SplitFront(s[1..], sep, t);
      assert (s + [sep] + t)[1..] == s[1..] + [sep] + t;
      assert [s[0]] + s[1..] == s;
      assert ([s[1..]] + SplitOn(t, sep))[1..] == SplitOn(t, sep);
    }
  }

  lemma {:induction false} SplitAppend(a: string, b: string, sep: char)
    ensures SplitOn(a + [sep] + b, sep) == SplitOn(a, sep) + SplitOn(b, sep)
  {
    var t := a + [sep] + b;
    if a == "" {
      assert t[1..] == b;
    } else {
      var x, y := SplitOn(a[1..], sep), SplitOn(b, sep);
      assert t[1..] == a[1..] + [sep] + b;
      SplitAppend(a[1..], b, sep);
      ConsAppend(x, y, a[0]);
    }
  }

  lemma ConsAppend(x: seq<string>, y: seq<string>, c: char)
    requires x != []
    ensures [""] + (x + y) == [""] + x + y
    ensures [[c] + (x + y)[0]] + (x + y)[1..] == [[c] + x[0]] + x[1..] + y
  {
    assert (x + y)[1..] == x[1..] + y;
  }

  /** No piece holds the separator, and every character of a piece is one of the text. */
  lemma {:induction false} PiecesOk(t: string, sep: char)
    ensures forall i :: 0 <= i < |SplitOn(t, sep)| ==>
              sep !in SplitOn(t, sep)[i] && forall c :: c in SplitOn(t, sep)[i] ==> c in t
  {
    if t != "" {
      PiecesOk(t[1..], sep);
      var rest := SplitOn(t[1..], sep);
      var all := SplitOn(t, sep);
      forall i | 0 <= i < |all|
        ensures sep !in all[i] && forall c :: c in all[i] ==> c in t
      {
        if t[0] == sep {
          if i > 0 { assert all[i] == rest[i - 1]; }
        } else if i > 0 {
          assert all[i] == rest[i];
        } else {
          assert rest[0] == SplitOn(t[1..], sep)[0];
        }
      }
    }
  }

  // ---------- trimming ----------

  function DropFront(s: string, f: char -> bool): string {
    if s != "" && f(s[0]) then DropFront(s[1..], f) else s
  }

  function DropBack(s: string, f: char -> bool): string {
    if s != "" && f(s[|s| - 1]) then DropBack(s[..|s| - 1], f) else s
  }

  /** Remove every matching character from both ends. */
  function TrimBy(s: string, f: char -> bool): string {
    DropBack(DropFront(s, f), f)
  }

  lemma {:induction false} DropFrontOk(s: string, f: char -> bool)
    ensures var r := DropFront(s, f);
            (r == "" || !f(r[0])) && (forall c :: c in r ==> c in s) && |r| <= |s| && r == s[|s| - |r|..]
  {
    if s != "" && f(s[0]) {
      DropFrontOk(s[1..], f);
    }
  }

  lemma {:induction false} DropBackOk(s: string, f: char -> bool)
    ensures var r := DropBack(s, f);
            (r == "" || !f(r[|r| - 1])) && (forall c :: c in r ==> c in s) && r <= s
  {
    if s != "" && f(s[|s| - 1]) {
      DropBackOk(s[..|s| - 1], f);
    }
  }

  /** What is left has no matching character at either end. */
  lemma TrimOk(s: string, f: char -> bool)
    ensures var r := TrimBy(s, f);
            (r == "" || (!f(r[0]) && !f(r[|r| - 1]))) && forall c :: c in r ==> c in s
  {
    DropFrontOk(s, f);
    DropBackOk(DropFront(s, f), f);
  }

  lemma TrimNothing(s: string, f: char -> bool)
    requires s == "" || (!f(s[0]) && !f(s[|s| - 1]))
    ensures TrimBy(s, f) == s
  {
  }

  lemma TrimLeading(c: char, s: string, f: char -> bool)
    requires f(c)
    ensures TrimBy([c] + s, f) == TrimBy(s, f)
  {
  }

  /** Characters with the Unicode White_Space property. */
  predicate IsSpace(c: char) {
    var n := c as int;
    || 9 <= n <= 13 || n == 32 || n == 0x85 || n == 0xA0 || n == 0x1680
    || 0x2000 <= n <= 0x200A || n == 0x2028 || n == 0x2029 || n == 0x202F || n == 0x205F || n == 0x3000
  }

  predicate IsQuote(c: char) {
    c == '"'
  }

  function Trim(s: string): string {
    TrimBy(s, IsSpace)
  }

  // ---------- lines ----------

  function Unlines(ls: seq<string>): string {
    if ls == [] then "" else ls[0] + "\n" + Unlines(ls[1..])
  }

  lemma {:induction false} LinesThenText(ls: seq<string>, rest: string)
    requires forall i :: 0 <= i < |ls| ==> '\n' !in ls[i]
    ensures SplitOn(Unlines(ls) + rest, '\n') == ls + SplitOn(rest, '\n')
  {
    hide SplitOn;
    if ls == [] {
      assert Unlines(ls) + rest == rest && ls + SplitOn(rest, '\n') == SplitOn(rest, '\n');
    } else {
      LinesThenText(ls[1..], rest);
      assert Unlines(ls) + rest == ls[0] + "\n" + (Unlines(ls[1..]) + rest);
      SplitFront(ls[0], '\n', Unlines(ls[1..]) + rest);
      assert [ls[0]] + (ls[1..] + SplitOn(rest, '\n')) == ls + SplitOn(rest, '\n');
    }
  }

  lemma LinesBack(ls: seq<string>)
    requires forall i :: 0 <= i < |ls| ==> '\n' !in ls[i]
    ensures SplitOn(Unlines(ls), '\n') == ls + [""]
  {
    LinesThenText(ls, "");
    SplitNone("", '\n');
    assert Unlines(ls) + "" == Unlines(ls);
  }

  lemma Associative(x: string, y: string, z: string)
    ensures x + (y + z) == x + y + z
  {
  }

  lemma {:induction false} UnlinesAppend(a: seq<string>, b: seq<string>)
    ensures Unlines(a + b) == Unlines(a) + Unlines(b)
  {
    if a == [] {
      assert a + b == b;
    } else {
      UnlinesAppend(a[1..], b);
      Associative(a[0] + "\n", Unlines(a[1..]), Unlines(b));
      assert (a + b)[0] == a[0] && (a + b)[1..] == a[1..] + b;
    }
  }

  // ---------- numbers ----------

  function Digit(d: nat): char
    requires d < 10
  {
    (d + '0' as int) as char
  }

  function Display(n: nat): (s: string)
    ensures s != ""
  {
    if n < 10 then [Digit(n)] else Display(n / 10) + [Digit(n % 10)]
  }

  predicate IsDigit(c: char) {
    '0' <= c <= '9'
  }

  function DigitOf(c: char): nat
    requires IsDigit(c)
  {
    c as int - '0' as int
  }

  function Value(s: string): nat
    requires forall i :: 0 <= i < |s| ==> IsDigit(s[i])
  {
    if s == "" then 0 else 10 * Value(s[..|s| - 1]) + DigitOf(s[|s| - 1])
  }

  /** An unsigned 32-bit number: an optional plus sign, then digits, below 2^32. */
  function ParseU32(s: string): Option<nat> {
    var digits := if s != "" && s[0] == '+' then s[1..] else s;
    if digits != "" && (forall i :: 0 <= i < |digits| ==> IsDigit(digits[i])) && Value(digits) < 0x1_0000_0000
    then Some(Value(digits)) else None
  }

  lemma {:induction false} DisplayValue(n: nat)
    ensures forall i :: 0 <= i < |Display(n)| ==> IsDigit(Display(n)[i])
    ensures Value(Display(n)) == n
  {
    if n >= 10 {
      DisplayValue(n / 10);
      assert Display(n)[..|Display(n)| - 1] == Display(n / 10);
    } else {
      assert Display(n)[..0] == "";
    }
  }

  lemma ParseDisplayed(n: nat)
    requires n < 0x1_0000_0000
    ensures ParseU32(Display(n)) == Some(n)
  {
    DisplayValue(n);
    assert IsDigit(Display(n)[0]);
  }
}
