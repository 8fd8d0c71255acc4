/** Ring arithmetic on ranks (yasl/link/context.cc): `size_t` arithmetic modulo the world size. */
module Ranks {

  /** `size_t` arithmetic wraps around. */
  function U64(x: int): nat {
    x % 0x1_0000_0000_0000_0000
  }

  function NextRank(rank: nat, stride: nat, n: nat): nat
    requires n > 0
  {
    U64(rank + stride) % n
  }

  function PrevRank(rank: nat, stride: nat, n: nat): nat
    requires n > 0
  {
    U64(U64(rank - stride) + n) % n
  }

  /** The rank `stride` places further around a ring of n. */
  function Ahead(rank: nat, stride: nat, n: nat): nat
    requires rank < n && stride <= n
  {
    if rank + stride < n then rank + stride else rank + stride - n
  }

  /** The rank `stride` places back around a ring of n. */
  function Behind(rank: nat, stride: nat, n: nat): nat
    requires rank < n && stride <= n
  {
    if stride <= rank then rank - stride else rank + n - stride
  }

  lemma ModOnce(x: nat, n: nat)
    requires 0 < n && x < 2 * n
    ensures x % n == if x < n then x else x - n
  {
    if x >= n {
      assert x == n + (x - n);
      assert x / n == 1;
    }
  }

  lemma WrapOnce(x: int)
    requires -0x4000_0000_0000_0000 < x < 0x8000_0000_0000_0000
    ensures U64(x) == if x >= 0 then x else x + 0x1_0000_0000_0000_0000
  {
  }

  lemma WrapBack(x: int, n: nat)
    requires -0x4000_0000_0000_0000 < x && n < 0x4000_0000_0000_0000 && 0 <= x + n < 0x8000_0000_0000_0000
    ensures U64(U64(x) + n) == x + n
  {
  }

  /** In a world of less than 2^62 parties, and for strides within the ring, the wrap-around of
      `size_t` cancels out: the source computes ring neighbours. */
  lemma RanksAreNeighbours(rank: nat, stride: nat, n: nat)
    requires rank < n < 0x4000_0000_0000_0000 && stride < n
    ensures NextRank(rank, stride, n) == Ahead(rank, stride, n)
    ensures PrevRank(rank, stride, n) == Behind(rank, stride, n)
  {
    hide U64;
    ModOnce(rank + stride, n);
    ModOnce(rank + n - stride, n);
    WrapOnce(rank + stride);
    WrapBack(rank - stride, n);
  }

  lemma AheadBehind(rank: nat, stride: nat, n: nat)
    requires rank < n && stride <= n
    ensures Behind(rank, stride, n) < n && Ahead(Behind(rank, stride, n), stride, n) == rank
    ensures Ahead(rank, stride, n) < n && Behind(Ahead(rank, stride, n), stride, n) == rank
  {
  }
}
