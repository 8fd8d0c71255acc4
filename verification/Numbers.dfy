/** Division rounded up, the numbers below a bound, and sums. */
module Numbers {

  function DivUp(x: nat, y: nat): nat
    requires y > 0
  {
    (x + y - 1) / y
  }

  lemma MulStep(k: nat, y: nat)
    ensures (k + 1) * y == k * y + y
  {
  }

  lemma MulMonotone(j: nat, k: nat, y: nat)
    requires j <= k
    ensures j * y <= k * y
  {
  }

  /** DivUp(x, y) pieces of size y cover x, and one less does not. */
  lemma DivUpMeaning(x: nat, y: nat)
    requires y > 0
    ensures x <= DivUp(x, y) * y
    ensures DivUp(x, y) > 0 ==> (DivUp(x, y) - 1) * y < x
  {
    var q, r := (x + y - 1) / y, (x + y - 1) % y;
    assert x + y - 1 == q * y + r;
    if q > 0 {
      MulStep(q - 1, y);
    }
  }

  lemma NoPieces(x: nat, y: nat)
    requires y > 0
    ensures DivUp(x, y) == 0 <==> x == 0
  {
    DivUpMeaning(x, y);
  }

  /** Every index below x is in one of the DivUp(x, y) pieces. */
  lemma PieceOf(x: nat, y: nat, k: nat) returns (t: nat)
    requires y > 0 && k < x
    ensures t < DivUp(x, y) && t * y <= k < t * y + y
  {
    t := k / y;
    assert k == t * y + k % y;
    DivUpMeaning(x, y);
    if t >= DivUp(x, y) {
      MulMonotone(DivUp(x, y), t, y);
    }
  }

  function Upto(n: nat): (r: set<nat>)
    ensures |r| == n && forall k: nat :: k in r <==> k < n
  {
    if n == 0 then {} else Upto(n - 1) + {n - 1}
  }

  // ---- Sums over sequences ----

  function Total<T>(f: T -> int, s: seq<T>): int {
    if |s| == 0 then 0 else Total(f, s[..|s| - 1]) + f(s[|s| - 1])
  }

  lemma {:induction false} TotalUpdate<T>(f: T -> int, s: seq<T>, i: nat, x: T)
    requires i < |s|
    ensures Total(f, s[i := x]) == Total(f, s) - f(s[i]) + f(x)
  {
    var n := |s| - 1;
    if i < n {
      assert s[i := x][..n] == s[..n][i := x];
      TotalUpdate(f, s[..n], i, x);
    } else {
      assert s[i := x][..n] == s[..n];
    }
  }

  lemma {:induction false} TotalConstant<T>(f: T -> int, s: seq<T>, c: int)
    requires forall i | 0 <= i < |s| :: f(s[i]) == c
    ensures Total(f, s) == |s| * c
  {
    if |s| > 0 {
      TotalConstant(f, s[..|s| - 1], c);
    }
  }

  lemma {:induction false} TotalNat<T>(f: T -> int, s: seq<T>)
    requires forall i | 0 <= i < |s| :: f(s[i]) >= 0
    ensures Total(f, s) >= 0
  {
    if |s| > 0 {
      TotalNat(f, s[..|s| - 1]);
    }
  }
}
