/** The arithmetic behind double hashing: a probe sequence that starts at a hash value `h` and
    advances by `h | 1` modulo the table size. */
module Probing {
  import opened Common

  ghost predicate IsPow2(n: nat) {
    n == 1 || (n > 1 && n % 2 == 0 && IsPow2(n / 2))
  }

  /** `h | 0x0001` */
  function OddStep(h: nat): (d: nat)
    ensures d % 2 == 1 && h <= d <= h + 1
  {
    if h % 2 == 0 then h + 1 else h
  }

  /** The cell inspected by the `n`-th probe. */
  function Probe(h: nat, n: nat, size: nat): (ix: nat)
    requires size > 0
    ensures ix < size
  {
    (h + n * OddStep(h)) % size
  }

  lemma MulAtLeast(t: int, size: int)
    ensures t >= 1 && size >= 0 ==> t * size >= size
  {
    if t >= 1 && size >= 0 {
      assert (t - 1) * size >= 0;
    }
  }

  lemma SmallMultiple(t: int, size: int)
    requires -size < t * size < size
    ensures t == 0
  {
    MulAtLeast(t, size);
    MulAtLeast(-t, size);
  }

  lemma ModOf(x: int, p: nat, k: int, size: nat)
    requires p < size && x == p + k * size
    ensures x % size == p
  {
    var t := x / size - k;
    assert t * size == (x / size) * size - k * size;
    SmallMultiple(t, size);
  }

  lemma AddMod(a: nat, b: nat, size: nat)
    requires size > 0
    ensures (a % size + b) % size == (a + b) % size
  {
    var q, s := a / size, (a + b) / size;
    assert a % size + b == (a + b) % size + (s - q) * size;
    ModOf(a % size + b, (a + b) % size, s - q, size);
  }

  lemma {:induction false} Pow2Divides(size: nat, w: nat)
    requires IsPow2(size) && IsPow2(w) && size <= w
    ensures w % size == 0
  {
    if size > 1 {
      Pow2Divides(size / 2, w / 2);
      var k := (w / 2) / (size / 2);
      assert w == size * k;
      ModOf(w, 0, k, size);
    }
  }

  lemma Double(n: nat)
    requires IsPow2(n)
    ensures IsPow2(2 * n) && IsPow2(4 * n) && IsPow2(8 * n) && IsPow2(16 * n)
  {
    assert (16 * n) / 2 == 8 * n && (8 * n) / 2 == 4 * n && (4 * n) / 2 == 2 * n && (2 * n) / 2 == n;
  }

  lemma PowersOfSixteen()
    ensures IsPow2(0x1000_0000)
  {
    Double(1);
    Double(0x10);
    Double(0x100);
    Double(0x1000);
    Double(0x1_0000);
    Double(0x10_0000);
    Double(0x100_0000);
  }

  lemma WordIsPow2()
    ensures IsPow2(WORD)
  {
    PowersOfSixteen();
    Double(0x1000_0000);
  }

  /** Truncating to 32 bits before reducing modulo a power of two changes nothing. */
  lemma WrapThenMod(x: nat, size: nat)
    requires IsPow2(size) && size <= WORD
    ensures (x % WORD) % size == x % size
  {
    WordIsPow2();
    Pow2Divides(size, WORD);
    DivisorMod(x, WORD, size);
  }

  lemma DivisorMod(x: nat, w: nat, size: nat)
    requires 0 < size <= w && w % size == 0
    ensures (x % w) % size == x % size
  {
    var k := w / size;
    assert w == k * size;
    NestedMod(x, k, size);
  }

  lemma NestedMod(x: nat, k: nat, size: nat)
    requires k > 0 && size > 0
    ensures k * size > 0 && (x % (k * size)) % size == x % size
  {
    var w := k * size;
    assert w >= size by { assert (k - 1) * size >= 0; }
    var q, r := x / w, x % w;
    var s, p := r / size, r % size;
    assert q * w == (q * k) * size;
    assert x == p + (q * k + s) * size by { assert (q * k + s) * size == (q * k) * size + s * size; }
    ModOf(x, p, q * k + s, size);
  }

  /** One turn of a probe loop, `(ix += h2) %= size` on unsigned words, is the next probe. */
  lemma ProbeAdvance(h: Word, n: nat, size: nat)
    requires IsPow2(size) && size <= WORD
    ensures ((Probe(h, n, size) + OddStep(h)) % WORD) % size == Probe(h, n + 1, size)
  {
    var d, x := OddStep(h), h + n * OddStep(h);
    assert Probe(h, n, size) == x % size && Probe(h, n + 1, size) == (x + d) % size by {
      assert (n + 1) * d == n * d + d;
    }
    hide Probe, OddStep, IsPow2;
    WrapThenMod(Probe(h, n, size) + d, size);
    AddMod(x, d, size);
  }

  lemma FirstProbe(h: nat, size: nat)
    requires size > 0
    ensures Probe(h, 0, size) == h % size
  {
    assert 0 * OddStep(h) == 0;
  }

  /** The first probe of a resumed search, `(h1 + i * h2) % size` on unsigned words. */
  lemma ProbeStart(h: Word, i: nat, size: nat)
    requires IsPow2(size) && size <= WORD
    ensures ((h + (i * OddStep(h)) % WORD) % WORD) % size == Probe(h, i, size)
  {
    var x := i * OddStep(h);
    AddMod(x, h, WORD);
    assert (h + x % WORD) % WORD == (h + x) % WORD;
    WrapThenMod(h + x, size);
  }

  /** An odd number is invertible modulo every power of two. */
  lemma {:induction false} OddInverse(d: nat, size: nat) returns (e: nat, c: int)
    requires d % 2 == 1 && IsPow2(size)
    ensures d * e == 1 + c * size
  {
    if size == 1 {
      e, c := 1, d - 1;
    } else {
      var e0, c0 := OddInverse(d, size / 2);
      e, c := LiftInverse(d, e0, c0, size / 2);
    }
  }

  lemma LiftInverse(d: nat, e0: nat, c0: int, m: nat) returns (e: nat, c: int)
    requires d % 2 == 1 && d * e0 == 1 + c0 * m
    ensures d * e == 1 + c * (2 * m)
  {
    var b;
    if c0 % 2 == 0 {
      e, b := e0, c0;
    } else {
      e, b := e0 + m, c0 + d;
      Expand(d, e0, c0, m);
    }
    c := b / 2;
    assert b == c + c;
    Expand(c, c, c, m);
  }

  lemma Expand(d: int, e: int, c: int, m: int)
    ensures d * (e + m) == d * e + d * m && (c + d) * m == c * m + d * m
    ensures d * (2 * m) == d * m + d * m
  {
  }

  /** From any probe on, every cell is met within `size` probes. */
  lemma ReachesCell(h: nat, i: nat, p: nat, size: nat) returns (n: nat)
    requires IsPow2(size) && p < size
    ensures i <= n < i + size && Probe(h, n, size) == p
  {
    var d := OddStep(h);
    var m := OddStepReaches(h + i * d, d, p, size);
    n := i + m;
    assert n * d == i * d + m * d;
  }

  lemma OddStepReaches(h: nat, d: nat, p: nat, size: nat) returns (n: nat)
    requires IsPow2(size) && p < size && d % 2 == 1
    ensures n < size && (h + n * d) % size == p
  {
    var e, c := OddInverse(d, size);
    var r, g := Reduce(h, size);
    var u := if p >= r then 0 else 1;
    var q := if p >= r then p - r else p + size - r;
    var k;
    n, k := ReduceProduct(q, e, size);
    ScaledInverse(q, d, e, c, k, n, size);
    var a := Combine(h, r, g, n * d, q, u, q * c - k * d, p, size);
    ModOf(h + n * d, p, a, size);
  }

  lemma Reduce(x: nat, size: nat) returns (n: nat, k: nat)
    requires size > 0
    ensures n < size && x == n + k * size
  {
    n, k := x % size, x / size;
  }

  lemma ReduceProduct(q: nat, e: nat, size: nat) returns (n: nat, k: nat)
    requires size > 0
    ensures n < size && q * e == n + k * size
  {
    n, k := Reduce(q * e, size);
  }

  lemma Combine(h: int, r: int, g: int, nd: int, q: int, u: int, b: int, p: int, size: int)
    returns (a: int)
    requires h == r + g * size && nd == q + b * size && q == p + u * size - r
    ensures h + nd == p + a * size
  {
    a := g + u + b;
    assert a * size == g * size + u * size + b * size;
  }

  lemma ScaledInverse(q: int, d: int, e: int, c: int, k: int, n: int, size: int)
    requires d * e == 1 + c * size && n == q * e - k * size
    ensures n * d == q + (q * c - k * d) * size
  {
    assert n * d == q * e * d - k * size * d;
    assert q * e * d == q * (d * e) == q + q * c * size;
    assert (q * c - k * d) * size == q * c * size - k * d * size;
  }

  ghost predicate Visits(h: nat, p: nat, size: nat)
    requires size > 0
  {
    exists n: nat :: Probe(h, n, size) == p
  }

  /** The step visits every cell for every hash value exactly when the size is a power of two. */
  lemma CoverageIffPow2(size: nat)
    requires size > 0
    ensures IsPow2(size) <==> forall h: nat, p: nat | p < size :: Visits(h, p, size)
  {
    if IsPow2(size) {
      forall h: nat, p: nat | p < size
        ensures Visits(h, p, size)
      {
        var n := ReachesCell(h, 0, p, size);
      }
    } else {
      var m, k := OddFactor(size);
      StaysOnMultiples(m, k, size);
      assert 1 < size && !Visits(m, 1, size);
    }
  }

  lemma StaysOnMultiples(m: nat, k: nat, size: nat)
    requires m % 2 == 1 && m >= 3 && size == k * m && size > 0
    ensures size > 1 && !Visits(m, 1, size)
  {
    MulAtLeast(k, m);
    if n: nat :| Probe(m, n, size) == 1 {
      var x := m + n * m;
      var q := x / size;
      assert x == 1 + q * size;
      NotMultiple(m, n, k, q);
    }
  }

  lemma NotMultiple(m: nat, n: nat, k: nat, q: nat)
    requires m >= 3
    ensures m + n * m != 1 + q * (k * m)
  {
    var t := 1 + n - q * k;
    assert t * m == m + n * m - q * (k * m);
    if t * m == 1 {
      SmallMultiple(t, m);
    }
  }

  lemma {:induction false} OddFactor(size: nat) returns (m: nat, k: nat)
    requires size > 0 && !IsPow2(size)
    ensures m % 2 == 1 && m >= 3 && size == k * m
  {
    if size % 2 == 1 {
      m, k := size, 1;
    } else {
      var k0;
      m, k0 := OddFactor(size / 2);
      k := 2 * k0;
    }
  }
}
