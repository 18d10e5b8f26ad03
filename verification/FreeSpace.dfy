/** The overflow-safe free-space product of isys.c. */
module FreeSpace {
  import opened Words

  function Pow2(n: nat): (p: nat)
    ensures p > 0
  {
    if n == 0 then 1 else 2 * Pow2(n - 1)
  }

  /** `b` is the number of binary digits of `v`. */
  ghost predicate BitLength(v: nat, b: nat) {
    if v == 0 then b == 0 else b > 0 && Pow2(b - 1) <= v < Pow2(b)
  }

  function Times(x: nat, y: nat): (p: nat) {
    x * y
  }

  lemma {:induction false} TimesMonotone(x: nat, y: nat, p: nat)
    ensures x <= y ==> Times(x, p) <= Times(y, p) && Times(p, x) <= Times(p, y)
    ensures x < y && p > 0 ==> Times(x, p) < Times(y, p) && Times(p, x) < Times(p, y)
    ensures Times(x, y) == Times(y, x) && Times(0, p) == 0 && Times(1, p) == p
  {
  }

  lemma {:induction false} TimesTwo(x: nat, y: nat)
    ensures Times(2 * x, y) == 2 * Times(x, y)
  {
  }

  /** The value shifted right by the bits of `limit`. */
  function Shifted(v: nat, limit: nat): (q: nat)
    requires limit > 0
  {
    v / limit
  }

  /** Some bit of the upper half of a number of twice as many bits is set. */
  predicate UpperSet(v: nat, limit: nat)
    requires limit > 0
  {
    v / limit % limit != 0
  }

  lemma {:induction false} Divided(v: nat, p: nat)
    requires p > 0
    ensures Times(v / p, p) <= v < Times(v / p + 1, p)
  {
  }

  lemma {:induction false} PowAdd(m: nat, n: nat)
    ensures Pow2(m + n) == Times(Pow2(m), Pow2(n))
  {
    hide Times;
    if m > 0 {
      PowAdd(m - 1, n);
      TimesTwo(Pow2(m - 1), Pow2(n));
    } else {
      TimesMonotone(0, 0, Pow2(n));
    }
  }

  lemma {:induction false} PowMonotone(m: nat, n: nat)
    requires m <= n
    ensures Pow2(m) <= Pow2(n)
    decreases n - m
  {
    if m < n {
      PowMonotone(m, n - 1);
    }
  }

  /** Dropping `s` low bits of a number that has more than that takes `s` off its length. */
  lemma {:induction false} LengthOfShifted(v: nat, s: nat, q: nat, b: nat)
    requires q == Shifted(v, Pow2(s)) && q > 0 && BitLength(q, b)
    ensures BitLength(v, b + s)
  {
    var p := Pow2(s);
    Divided(v, p);
    hide Times;
    PowAdd(b - 1, s);
    PowAdd(b, s);
    TimesMonotone(Pow2(b - 1), q, p);
    TimesMonotone(q + 1, Pow2(b), p);
    TimesMonotone(1, q, p);
  }

  lemma {:induction false} QuotientBelow(v: nat, limit: nat, q: nat)
    requires 0 < limit && v < Times(limit, limit) && Times(q, limit) <= v < Times(q + 1, limit)
    ensures q < limit && (q == 0 ==> v < limit)
  {
    hide Times;
    TimesMonotone(limit, q, limit);
    TimesMonotone(0, 0, limit);
  }

  lemma {:induction false} ModuloOfSmall(q: nat, limit: nat)
    requires q < limit
    ensures q % limit == q
  {
  }

  lemma {:induction false} SmallQuotient(v: nat, limit: nat, q: nat)
    requires 0 < limit && v < Times(limit, limit) && q == Shifted(v, limit)
    ensures q < limit && (UpperSet(v, limit) <==> q > 0) && (q == 0 ==> v < limit)
  {
    hide Times;
    Divided(v, limit);
    QuotientBelow(v, limit, q);
    ModuloOfSmall(q, limit);
  }

  /** One conditional shift: the length found so far plus the length of what is left stays the same. */
  method Halve(v: nat, s: nat, limit: nat, b: nat, ghost n: nat) returns (v': nat, b': nat, ghost n': nat)
    requires limit == Pow2(s) && v < Times(limit, limit) && BitLength(v, n)
    ensures v' < limit && BitLength(v', n') && b' + n' == b + n
  {
    hide Times, BitLength, Shifted, UpperSet;
    SmallQuotient(v, limit, Shifted(v, limit));
    if UpperSet(v, limit) {
      v', b' := Shifted(v, limit), b + s;
      n' := LengthExists(v');
      LengthOfShifted(v, s, v', n');
      LengthUnique(v, n, n' + s);
    } else {
      v', b', n' := v, b, n;
    }
  }

  lemma {:induction false} LengthUnique(v: nat, a: nat, b: nat)
    requires BitLength(v, a) && BitLength(v, b)
    ensures a == b
  {
    if a < b {
      PowMonotone(a, b - 1);
    } else if b < a {
      PowMonotone(b, a - 1);
    }
  }

  lemma {:induction false} LengthExists(v: nat) returns (b: nat)
    ensures BitLength(v, b)
  {
    if v == 0 {
      b := 0;
    } else {
      b := LengthExists(v / 2);
      b := b + 1;
      if v / 2 == 0 {
        assert Pow2(0) == 1 && Pow2(1) == 2;
      }
    }
  }

  /** get_bits is the exact bit length of every 64-bit value. */
  method GetBits(v: nat) returns (b: nat)
    requires v < TWO_TO_THE_64
    ensures BitLength(v, b)
  {
    hide BitLength, Pow2;
    Powers();
    ghost var n := LengthExists(v);
    var w := v;
    b := 0;
    w, b, n := Halve(w, 32, 0x1_0000_0000, b, n);
    w, b, n := Halve(w, 16, 0x1_0000, b, n);
    w, b, n := Halve(w, 8, 0x100, b, n);
    w, b, n := Halve(w, 4, 0x10, b, n);
    w, b, n := Halve(w, 2, 0x4, b, n);
    // w is now below four
    SmallLengths(w, n);
    if UpperSet(w, 2) {
      b := b + 1;
    }
    b := if w != 0 then b + 1 else b;
  }

  lemma {:induction false} Powers()
    ensures Pow2(2) == 4 && Pow2(4) == 16 && Pow2(8) == 0x100 && Pow2(16) == 0x1_0000 && Pow2(32) == 0x1_0000_0000
    ensures Pow2(64) == TWO_TO_THE_64
  {
    assert Pow2(2) == 4 && Pow2(4) == 16;
    PowAdd(4, 4);
    PowAdd(8, 8);
    PowAdd(16, 16);
    PowAdd(32, 32);
  }

  lemma {:induction false} SmallLengths(w: nat, n: nat)
    requires w < 4 && BitLength(w, n)
    ensures n == if w == 0 then 0 else if w == 1 then 1 else 2
  {
    if w == 1 {
      LengthUnique(w, n, 1);
    } else if w >= 2 {
      assert Pow2(1) == 2 && Pow2(2) == 4;
      LengthUnique(w, n, 2);
    }
  }

  /** The free-space product: exact when the bit lengths sum to at most 64, else saturated, and then at least 2^63. */
  method FreeBytes(bfree: nat, bsize: nat) returns (size: nat)
    requires bfree < TWO_TO_THE_64 && bsize < TWO_TO_THE_64
    ensures size < TWO_TO_THE_64
    ensures forall m, n :: BitLength(bfree, m) && BitLength(bsize, n) ==>
      if m + n <= 64 then size == bfree * bsize
      else size == TWO_TO_THE_64 - 1 && bfree * bsize >= TWO_TO_THE_64 / 2
  {
    var a := GetBits(bfree);
    var b := GetBits(bsize);
    forall m, n | BitLength(bfree, m) && BitLength(bsize, n)
      ensures m == a && n == b
    {
      LengthUnique(bfree, m, a);
      LengthUnique(bsize, n, b);
    }
    ProductBounds(bfree, bsize, a, b);
    if a + b <= 64 {
      size := bfree * bsize % TWO_TO_THE_64;
    } else {
      size := TWO_TO_THE_64 - 1;
    }
  }

  lemma {:induction false} ProductBelow(x: nat, y: nat, a: nat, b: nat)
    requires BitLength(x, a) && BitLength(y, b) && x > 0 && y > 0
    ensures Times(x, y) < Pow2(a + b)
  {
    hide Times, Pow2;
    PowAdd(a, b);
    TimesMonotone(x, Pow2(a), y);
    TimesMonotone(y, Pow2(b), Pow2(a));
  }

  lemma {:induction false} ProductAbove(x: nat, y: nat, a: nat, b: nat)
    requires BitLength(x, a) && BitLength(y, b) && x > 0 && y > 0
    ensures a > 0 && b > 0 && Pow2(a + b - 2) <= Times(x, y)
  {
    hide Times, Pow2;
    PowAdd(a - 1, b - 1);
    TimesMonotone(Pow2(a - 1), x, Pow2(b - 1));
    TimesMonotone(Pow2(b - 1), y, x);
  }

  lemma {:induction false} ProductBounds(x: nat, y: nat, a: nat, b: nat)
    requires BitLength(x, a) && BitLength(y, b) && x < TWO_TO_THE_64 && y < TWO_TO_THE_64
    ensures a + b <= 64 ==> Times(x, y) < TWO_TO_THE_64
    ensures a + b > 64 ==> Times(x, y) >= TWO_TO_THE_64 / 2
  {
    hide Times;
    Powers();
    AtMost64(x, a);
    AtMost64(y, b);
    if x == 0 || y == 0 {
      TimesMonotone(x, y, y);
      TimesMonotone(y, x, x);
    } else {
      ProductBelow(x, y, a, b);
      ProductAbove(x, y, a, b);
      if a + b <= 64 {
        PowMonotone(a + b, 64);
      } else {
        PowMonotone(63, a + b - 2);
        assert Pow2(64) == 2 * Pow2(63);
      }
    }
  }

  lemma {:induction false} AtMost64(x: nat, a: nat)
    requires BitLength(x, a) && x < TWO_TO_THE_64
    ensures a <= 64
  {
    Powers();
    if a > 64 {
      PowMonotone(64, a - 1);
    }
  }
}
