/**
 * Machine integer widths used by the assembler and the explicit casts between them.
 * Dafny integers are unbounded, so every Rust `as` cast that can truncate is
 * written out here once.
 */
module Common {

  datatype Option<+T> = None | Some(value: T)


  type u8 = x: int | 0 <= x < 0x100
  type u16 = x: int | 0 <= x < 0x1_0000
  type i16 = x: int | -0x8000 <= x < 0x8000
  type i32 = x: int | -0x8000_0000 <= x < 0x8000_0000

  /** A register index R0..R7. */
  type Reg = x: int | 0 <= x < 8

  /** Two integers agree modulo 2^16. */
  predicate Congruent16(a: int, b: int) {
    (a - b) % 0x1_0000 == 0
  }

  /** Rust's truncating `x as u16`: the unique u16 congruent to x. */
  function AsU16(x: int): (r: u16)
    ensures Congruent16(r, x)
    ensures 0 <= x < 0x1_0000 ==> r == x
  {
    x % 0x1_0000
  }

  /** Rust's truncating `x as i16`: the unique i16 congruent to x. */
  function AsI16(x: int): (r: i16)
    ensures Congruent16(r, x)
    ensures -0x8000 <= x < 0x8000 ==> r == x
  {
    var u := x % 0x1_0000;
    if u >= 0x8000 then u - 0x1_0000 else u
  }

  /** `u16::wrapping_add`. */
  function WrappingAdd(a: u16, b: u16): (r: u16)
    ensures Congruent16(r, a + b)
    ensures a + b < 0x1_0000 ==> r == a + b
    ensures a + b >= 0x1_0000 ==> r == a + b - 0x1_0000
  {
    (a + b) % 0x1_0000
  }

  function Pow2(n: nat): (r: nat)
    ensures r >= 1
  {
    if n == 0 then 1 else 2 * Pow2(n - 1)
  }

  /** Congruence modulo 2^16 pins a u16 down: two u16 values congruent to each other are equal. */
  lemma CongruentU16Unique(a: u16, b: u16)
    requires Congruent16(a, b)
    ensures a == b
  {
  }

  /** Wrapping twice is wrapping once. */
  lemma AsU16Add(a: int, b: int)
    ensures AsU16(AsU16(a) + b) == AsU16(a + b)
  {
  }

  /** A counter at `a` wrapped, advanced by one with wrap-around, is at `a + 1` wrapped. */
  lemma WrapNext(a: int, c: u16)
    ensures c == AsU16(a) ==> WrappingAdd(c, 1) == AsU16(a + 1)
  {
    if c == AsU16(a) {
      AsU16Add(a, 1);
    }
  }

  /** A counter that was `a` wrapped, advanced by `b` without passing 2^16, is `a + b` wrapped. */
  lemma AdvanceWrapped(a: int, b: nat, lc: u16)
    requires lc == AsU16(a) && lc + b <= 0x1_0000
    ensures AsU16(lc + b) == AsU16(a + b)
  {
    AsU16Add(a, b);
  }

  // ---------------------------------------------------------------------------
  // Arithmetic on powers of two. Each nonlinear step is a lemma of its own, so
  // that the solver sees one product at a time.
  // ---------------------------------------------------------------------------

  lemma {:induction false} MulAtLeast(p: int, m: int)
    requires p > 0 && m >= 1
    ensures p * m >= p
    decreases m
  {
    if m > 1 {
      MulAtLeast(p, m - 1);
      assert p * m == p * (m - 1) + p;
    }
  }

  /** A nonzero multiple of a positive number is at least that number away from zero. */
  lemma MulSign(p: int, d: int)
    requires p > 0
    ensures d >= 1 ==> p * d >= p
    ensures d <= -1 ==> p * d <= -p
  {
    if d >= 1 {
      MulAtLeast(p, d);
    } else if d <= -1 {
      MulAtLeast(p, -d);
      assert p * d == -(p * -d);
    }
  }

  /** Euclidean division has a unique remainder. */
  lemma ModUnique(x: int, p: int, k: int, a: int)
    requires p > 0 && 0 <= a < p && x == p * k + a
    ensures x % p == a && x / p == k
  {
    var q := x / p;
    MulSign(p, k - q);
    assert p * (k - q) == p * k - p * q;
  }

  lemma DivMod(x: int, p: int)
    requires p > 0
    ensures x == p * (x / p) + x % p && 0 <= x % p < p
  {
  }

  lemma MulAssoc(a: int, b: int, c: int)
    ensures (a * b) * c == a * (b * c)
  {
  }

  lemma MulSub(p: int, a: int, b: int)
    ensures p * (a - b) == p * a - p * b
  {
  }

  lemma {:induction false} Pow2Add(a: nat, b: nat)
    ensures Pow2(a + b) == Pow2(a) * Pow2(b)
    decreases a
  {
    if a > 0 {
      Pow2Add(a - 1, b);
      assert Pow2(a + b) == 2 * Pow2(a - 1 + b);
    }
  }

  /** The powers the instruction formats use. */
  lemma Pow2Values()
    ensures Pow2(5) == 0x20 && Pow2(6) == 0x40 && Pow2(8) == 0x100
    ensures Pow2(9) == 0x200 && Pow2(11) == 0x800 && Pow2(16) == 0x1_0000
  {
    assert Pow2(4) == 16 by {
      assert Pow2(1) == 2;
      assert Pow2(2) == 4;
      assert Pow2(3) == 8;
    }
    assert Pow2(5) == 0x20;
    assert Pow2(6) == 0x40;
    Pow2Add(4, 4);
    assert Pow2(9) == 0x200;
    assert Pow2(10) == 0x400;
    assert Pow2(11) == 0x800;
    Pow2Add(8, 8);
  }

  /** The low `bits` bits and the remaining high bits of a 16-bit word. */
  lemma Pow2Split(bits: nat)
    requires bits <= 16
    ensures Pow2(bits) * Pow2(16 - bits) == 0x1_0000
    ensures Pow2(bits) <= 0x1_0000
  {
    Pow2Add(bits, 16 - bits);
    Pow2Values();
    MulAtLeast(Pow2(bits), Pow2(16 - bits));
  }

  /** Keeping the low bits of the 16-bit pattern of `v` changes `v` by a multiple of `p`, for `p` dividing 2^16. */
  lemma LowPartCongruent(v: int, p: int, q: int)
    requires p > 0 && p * q == 0x1_0000
    ensures (AsU16(v) % p - v) % p == 0
  {
    var u := AsU16(v);
    var m := v / 0x1_0000;
    DivMod(v, 0x1_0000);
    DivMod(u, p);
    var d := u / p;
    MulAssoc(p, q, m);
    var k := q * m;
    MulSub(p, -k, d);
    ModUnique(u % p - v, p, -k - d, 0);
  }

  /** The low bits of the 16-bit pattern of a small `v`: `v` itself, or `v + p` when `v` is negative. */
  lemma LowPartSmall(v: int, p: int, q: int)
    requires p > 0 && q > 0 && p * q == 0x1_0000 && p % 2 == 0
    requires -(p / 2) <= v < p / 2
    ensures v >= 0 ==> AsU16(v) % p == v
    ensures v < 0 ==> AsU16(v) % p == v + p
  {
    MulAtLeast(p, q);
    if v >= 0 {
      ModUnique(v, 0x1_0000, 0, v);
      ModUnique(v, p, 0, v);
    } else {
      ModUnique(v, 0x1_0000, -1, v + 0x1_0000);
      MulSub(p, q, 1);
      ModUnique(v + 0x1_0000, p, q - 1, v + p);
    }
  }

  /** `char::to_ascii_uppercase`: only 'a'..'z' change. */
  function UpperChar(c: char): (r: char)
    ensures 'a' <= c <= 'z' ==> r as int == c as int - 32
    ensures !('a' <= c <= 'z') ==> r == c
  {
    if 'a' <= c <= 'z' then (c as int - 32) as char else c
  }

  /** `str::to_ascii_uppercase`, character by character. */
  function Upper(s: string): (r: string)
    ensures |r| == |s|
    ensures forall i :: 0 <= i < |s| ==> r[i] == UpperChar(s[i])
  {
    if |s| == 0 then [] else Upper(s[..|s| - 1]) + [UpperChar(s[|s| - 1])]
  }
}
