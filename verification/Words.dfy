/** The machine words of the repository: powers of two, truncation and shifts of integers,
    and `uint128_t` as its 128 bits. */
module Words {
  import opened Numbers

  const WIDTH: nat := 128

  function Pow2(k: nat): (r: nat)
    ensures r > 0
  {
    if k == 0 then 1 else 2 * Pow2(k - 1)
  }

  lemma Pow2Step(k: nat)
    ensures Pow2(0) == 1 && Pow2(k + 1) == 2 * Pow2(k)
  {
  }

  lemma MulTwo(a: int, b: int)
    ensures (2 * a) * b == 2 * (a * b)
  {
  }

  lemma {:induction false} Pow2Add(a: nat, b: nat)
    ensures Pow2(a + b) == Pow2(a) * Pow2(b)
    decreases a
  {
    if a > 0 {
      hide Pow2;
      Pow2Add(a - 1, b);
      Pow2Step(a - 1);
      Pow2Step(a - 1 + b);
      MulTwo(Pow2(a - 1), Pow2(b));
    }
  }

  lemma Pow2Of32()
    ensures Pow2(32) == 0x1_0000_0000
  {
    assert Pow2(4) == 0x10 && Pow2(8) == 0x100 by {
      Pow2Step(0);
      Pow2Step(2);
      Pow2Add(4, 4);
    }
    hide Pow2;
    Pow2Add(8, 8);
    Pow2Add(16, 16);
  }

  lemma Pow2Of64()
    ensures Pow2(64) == 0x1_0000_0000_0000_0000
  {
    hide Pow2;
    Pow2Of32();
    Pow2Add(32, 32);
  }

  lemma {:induction false} Pow2Monotone(a: nat, b: nat)
    requires a <= b
    ensures Pow2(a) <= Pow2(b)
  {
    if a < b {
      Pow2Monotone(a, b - 1);
    }
  }

  /** The largest k with 2^k at most n: `log2(n)` cut to an integer. */
  function FloorLog2(n: nat): nat {
    if n <= 1 then 0 else 1 + FloorLog2(n / 2)
  }

  lemma {:induction false} FloorLog2Meaning(n: nat)
    requires n > 0
    ensures Pow2(FloorLog2(n)) <= n < Pow2(FloorLog2(n) + 1)
  {
    if n > 1 {
      FloorLog2Meaning(n / 2);
    }
  }

  lemma {:induction false} FloorLog2OfPow2(d: nat)
    ensures FloorLog2(Pow2(d)) == d
  {
    if d > 0 {
      FloorLog2OfPow2(d - 1);
    }
  }

  // ---- Integers: the low bits, the high bits, one bit ----

  /** The low k bits of x: its residue modulo 2^k. */
  function Low(x: int, k: nat): nat
    decreases k, x
  {
    if k == 0 then 0 else x % 2 + 2 * Low(x / 2, k - 1)
  }

  lemma {:induction false} LowBound(x: int, k: nat)
    ensures Low(x, k) < Pow2(k)
    decreases k
  {
    if k > 0 {
      LowBound(x / 2, k - 1);
    }
  }

  /** x shifted right by k. */
  function High(x: nat, k: nat): nat
    decreases k, x
  {
    if k == 0 then x else High(x / 2, k - 1)
  }

  /** Bit i of x, as `x >> i & 1` reads it. */
  predicate Bit(x: nat, i: nat) {
    High(x, i) % 2 == 1
  }

  /** `x & y`. */
  function AndInt(x: nat, y: nat): nat {
    if x == 0 || y == 0 then 0
    else (if x % 2 == 1 && y % 2 == 1 then 1 else 0) + 2 * AndInt(x / 2, y / 2)
  }

  /** Masking with k ones truncates. */
  lemma {:induction false} AndOnes(x: nat, k: nat)
    ensures AndInt(x, Pow2(k) - 1) == Low(x, k)
    decreases k
  {
    if k == 0 {
    } else if x == 0 {
      LowSmall(0, k);
    } else {
      assert (Pow2(k) - 1) / 2 == Pow2(k - 1) - 1;
      AndOnes(x / 2, k - 1);
    }
  }

  lemma {:induction false} LowSmall(x: nat, k: nat)
    requires x < Pow2(k)
    ensures Low(x, k) == x
    decreases k
  {
    if k > 0 {
      LowSmall(x / 2, k - 1);
    }
  }

  /** Truncating a summand first changes nothing. */
  lemma {:induction false} LowAdd(x: int, y: int, k: nat)
    ensures Low(Low(x, k) + y, k) == Low(x + y, k)
    decreases k
  {
    if k > 0 {
      var c := (x % 2 + y) / 2;
      assert (Low(x, k) + y) / 2 == Low(x / 2, k - 1) + c;
      assert (x + y) / 2 == x / 2 + c;
      LowAdd(x / 2, c, k - 1);
    }
  }

  lemma LowSub(x: int, y: int, k: nat)
    ensures Low(y - Low(x, k), k) == Low(y - x, k)
  {
    hide Low;
    var z := y - x - Low(x, k);
    LowAdd(x, z, k);
    LowAdd(z, Low(x, k), k);
    LowAdd(x, Low(z, k), k);
    LowAdd(z, x, k);
  }

  lemma {:induction false} LowPow2(x: int, k: nat)
    ensures Low(x + Pow2(k), k) == Low(x, k)
    decreases k
  {
    if k > 0 {
      assert (x + Pow2(k)) / 2 == x / 2 + Pow2(k - 1);
      LowPow2(x / 2, k - 1);
    }
  }

  lemma {:induction false} LowLow(x: int, j: nat, k: nat)
    requires k <= j
    ensures Low(Low(x, j), k) == Low(x, k)
    decreases k
  {
    if k > 0 {
      assert Low(x, j) / 2 == Low(x / 2, j - 1);
      LowLow(x / 2, j - 1, k - 1);
    }
  }

  /** The low i+1 bits are bit i on top of the low i bits. */
  lemma {:induction false} LowBits(x: nat, i: nat)
    ensures Low(x, i + 1) == (if Bit(x, i) then Pow2(i) else 0) + Low(x, i)
    decreases i
  {
    if i > 0 {
      LowBits(x / 2, i - 1);
    }
  }

  /** Two numbers agree on their low i+1 bits when they agree on bit i and on the low i bits. */
  lemma AgreeLow(x: nat, y: nat, i: nat)
    ensures Low(x, i + 1) == Low(y, i + 1) <==> Low(x, i) == Low(y, i) && Bit(x, i) == Bit(y, i)
  {
    LowBits(x, i);
    LowBits(y, i);
    LowBound(x, i);
    LowBound(y, i);
  }

  lemma {:induction false} HighBound(x: nat, n: nat, k: nat)
    requires k <= n && x < Pow2(n)
    ensures High(x, k) < Pow2(n - k)
    decreases k
  {
    if k > 0 {
      HighBound(x / 2, n - 1, k - 1);
    }
  }

  lemma HighZero(x: nat, n: nat)
    requires x < Pow2(n)
    ensures High(x, n) == 0
  {
    HighBound(x, n, n);
  }

  /** The low k bits are what `% 2^k` gives. */
  lemma LowIsMod(x: nat, k: nat)
    ensures Low(x, k) == x % Pow2(k)
  {
    LowHigh(x, k);
    LowBound(x, k);
    RemainderUnique(x, Pow2(k), High(x, k), Low(x, k));
  }

  lemma RemainderUnique(x: nat, m: nat, q: nat, r: nat)
    requires x == r + m * q && r < m
    ensures x % m == r
  {
    assert x == m * (x / m) + x % m;
    if q < x / m {
      MulMonotone(q + 1, x / m, m);
    } else if x / m < q {
      MulMonotone(x / m + 1, q, m);
    }
  }

  lemma {:induction false} HighStep(x: nat, k: nat)
    ensures High(x, k + 1) == High(x, k) / 2
    decreases k
  {
    if k > 0 {
      HighStep(x / 2, k - 1);
    }
  }

  /** A number is its high bits above its low bits. */
  lemma {:induction false} LowHigh(x: nat, k: nat)
    ensures x == Low(x, k) + Pow2(k) * High(x, k)
    decreases k
  {
    if k > 0 {
      LowHigh(x / 2, k - 1);
      MulTwo(Pow2(k - 1), High(x, k));
    }
  }

  /** ... and low and high bits can be chosen freely. */
  lemma {:induction false} LowHighJoin(low: nat, high: nat, k: nat)
    requires low < Pow2(k)
    ensures Low(low + Pow2(k) * high, k) == low
    ensures High(low + Pow2(k) * high, k) == high
    decreases k
  {
    if k > 0 {
      LowHighJoin(low / 2, high, k - 1);
      MulTwo(Pow2(k - 1), high);
      var p := Pow2(k - 1) * high;
      var x := low + 2 * p;
      assert x == low + Pow2(k) * high;
      hide Pow2;
      assert x / 2 == low / 2 + p && x % 2 == low % 2;
    }
  }

  // ---- uint128_t ----

  /** A `uint128_t` (or a 128-bit SSE `block`): its bits, least significant first. */
  type Block = b: seq<bool> | |b| == 128 witness seq(128, _ => false)

  /** A pseudo random generator: the i-th block it returns for a seed. */
  type Stream = (Block, nat) -> Block

  function Zero(): Block {
    seq(128, _ => false)
  }

  function Xor(a: Block, b: Block): Block {
    seq(128, i requires 0 <= i < 128 => a[i] != b[i])
  }

  function And(a: Block, b: Block): Block {
    seq(128, i requires 0 <= i < 128 => a[i] && b[i])
  }

  function Shl(a: Block, k: nat): Block {
    seq(128, i requires 0 <= i < 128 => i >= k && a[i - k])
  }

  function Shr(a: Block, k: nat): Block {
    seq(128, i requires 0 <= i < 128 => i + k < 128 && a[i + k])
  }

  lemma XorComm(a: Block, b: Block)
    ensures Xor(a, b) == Xor(b, a)
  {
    assert forall i | 0 <= i < 128 :: Xor(a, b)[i] == Xor(b, a)[i];
  }

  lemma XorAssoc(a: Block, b: Block, c: Block)
    ensures Xor(Xor(a, b), c) == Xor(a, Xor(b, c))
  {
    assert forall i | 0 <= i < 128 :: Xor(Xor(a, b), c)[i] == Xor(a, Xor(b, c))[i];
  }

  lemma XorZero(a: Block)
    ensures Xor(a, Zero()) == a == Xor(Zero(), a)
  {
    assert forall i | 0 <= i < 128 :: Xor(a, Zero())[i] == a[i] == Xor(Zero(), a)[i];
  }

  /** Masking with the same word twice gives back the word. */
  lemma XorCancel(a: Block, b: Block)
    ensures Xor(Xor(a, b), b) == a
    ensures Xor(b, Xor(b, a)) == a
  {
    assert forall i | 0 <= i < 128 :: Xor(Xor(a, b), b)[i] == a[i] == Xor(b, Xor(b, a))[i];
  }

  /** The number a bit string denotes. */
  function Value(bits: seq<bool>): nat {
    if bits == [] then 0 else (if bits[0] then 1 else 0) + 2 * Value(bits[1..])
  }
}
