/** Result shapes and byte-level arithmetic shared by the models. */
module Common {
  datatype Option<+T> = None | Some(value: T)

  datatype Result<+T, +E> = Ok(value: T) | Err(error: E)

  type byte = b: nat | b < 256

  const U16 := 0x1_0000
  const U32 := 0x1_0000_0000
  const U64 := 0x1_0000_0000_0000_0000
  type u16 = n: nat | n < U16
  type u32 = n: nat | n < U32
  type u64 = n: nat | n < U64

  function Min(a: nat, b: nat): nat {
    if a < b then a else b
  }

  function Max(a: nat, b: nat): nat {
    if a < b then b else a
  }
}

/** Machine words as numbers: single bits and powers of two. */
module Words {
  import opened Common

  /** `w & (1 << k) != 0`. */
  predicate Bit(w: nat, k: nat) {
    if k == 0 then w % 2 == 1 else Bit(w / 2, k - 1)
  }

  /** `w | (1 << k)`. */
  function SetBit(w: nat, k: nat): nat {
    if k == 0 then w - w % 2 + 1 else 2 * SetBit(w / 2, k - 1) + w % 2
  }

  /** `w & !(1 << k)`. */
  function ClearBit(w: nat, k: nat): nat {
    if k == 0 then w - w % 2 else 2 * ClearBit(w / 2, k - 1) + w % 2
  }

  function Pow2(n: nat): (r: nat)
    ensures r > 0
  {
    if n == 0 then 1 else 2 * Pow2(n - 1)
  }

  lemma Pow2Of32()
    ensures Pow2(32) == U32
  {
    assert Pow2(8) == 0x100;
    assert Pow2(16) == 0x1_0000 by { assert Pow2(16) == 256 * Pow2(8); }
    assert Pow2(24) == 0x100_0000 by { assert Pow2(24) == 256 * Pow2(16); }
    assert Pow2(32) == 256 * Pow2(24);
  }

  lemma Pow2Of64()
    ensures Pow2(64) == U64
  {
    Pow2Of32();
    assert Pow2(40) == 0x100_0000_0000 by { assert Pow2(40) == 256 * Pow2(32); }
    assert Pow2(48) == 0x1_0000_0000_0000 by { assert Pow2(48) == 256 * Pow2(40); }
    assert Pow2(56) == 0x100_0000_0000_0000 by { assert Pow2(56) == 256 * Pow2(48); }
    assert Pow2(64) == 256 * Pow2(56);
  }

  lemma {:induction false} BitFacts(w: nat, j: nat, k: nat)
    ensures Bit(SetBit(w, j), k) <==> j == k || Bit(w, k)
    ensures Bit(ClearBit(w, j), k) <==> j != k && Bit(w, k)
  {
    if j > 0 && k > 0 {
      BitFacts(w / 2, j - 1, k - 1);
      assert SetBit(w, j) / 2 == SetBit(w / 2, j - 1) && ClearBit(w, j) / 2 == ClearBit(w / 2, j - 1);
    }
  }

  lemma {:induction false} BitWidth(w: nat, j: nat, n: nat)
    requires w < Pow2(n) && j < n
    ensures SetBit(w, j) < Pow2(n) && ClearBit(w, j) < Pow2(n)
  {
    if j > 0 {
      BitWidth(w / 2, j - 1, n - 1);
    }
  }

  lemma {:induction false} AllOnes(k: nat, n: nat)
    requires k < n
    ensures Bit(Pow2(n) - 1, k)
  {
    if k > 0 {
      AllOnes(k - 1, n - 1);
    }
  }

  lemma {:induction false} NoOnes(k: nat)
    ensures !Bit(0, k)
  {
    if k > 0 {
      NoOnes(k - 1);
    }
  }
}

/** Quotient and remainder of a sum. */
module Division {
  lemma TimesMonotone(a: nat, b: nat, p: nat)
    requires a <= b
    ensures a * p <= b * p
  {
  }

  lemma DivisionIsUnique(q: nat, r: nat, a: nat, s: nat, p: nat)
    requires r < p && s < p && q * p + r == a * p + s
    ensures q == a && r == s
  {
    if q < a {
      TimesMonotone(q + 1, a, p);
    } else if a < q {
      TimesMonotone(a + 1, q, p);
    }
  }

  lemma RemainderIs(q: nat, r: nat, p: nat)
    requires r < p
    ensures (q * p + r) % p == r && (q * p + r) / p == q
  {
    var m := q * p + r;
    assert m == (m / p) * p + m % p;
    DivisionIsUnique(m / p, m % p, q, r, p);
  }
}
