/** The 128 x 128 bit-matrix transposes of yasl/mpctools/ot/utils: the naive one, which is the
    specification, and Eklundh's in-place one. */
module Transpose {
  import opened Words

  /** A matrix of 128 rows. */
  type Matrix = m: seq<Block> | |m| == 128 witness seq(128, _ => Zero())

  function Column(m: Matrix, i: nat): Block
    requires i < 128
  {
    seq(128, j requires 0 <= j < 128 => m[j][i])
  }

  function Transposed(m: Matrix): Matrix {
    seq(128, i requires 0 <= i < 128 => Column(m, i))
  }

  /** Matrices with the same entries are the same matrix. */
  lemma SameEntries(a: Matrix, b: Matrix)
    requires forall r, c | 0 <= r < 128 && 0 <= c < 128 :: a[r][c] == b[r][c]
    ensures a == b
  {
    forall r | 0 <= r < 128
      ensures a[r] == b[r]
    {
    }
  }

  /** m is the transpose of orig, entry by entry. */
  ghost predicate IsTranspose(orig: Matrix, m: Matrix) {
    forall r, c | 0 <= r < 128 && 0 <= c < 128 :: m[r][c] == orig[c][r]
  }

  lemma TransposeEntries(orig: Matrix, m: Matrix)
    ensures IsTranspose(orig, m) <==> m == Transposed(orig)
  {
    if IsTranspose(orig, m) {
      SameEntries(m, Transposed(orig));
    }
  }

  /** `NaiveTranspose`: row by row, or-ing in one bit at a time. */
  method NaiveTranspose(inout: array<Block>)
    requires inout.Length == 128
    modifies inout
    ensures inout[..] == Transposed(old(inout[..]))
  {
    ghost var orig: Matrix := inout[..];
    var input := inout[..];
    for i := 0 to 128
      invariant forall r | 0 <= r < i :: inout[r] == Column(orig, r)
    {
      var t: Block := Zero();
      for j := 0 to 128
        invariant forall c | 0 <= c < 128 :: t[c] == (c < j && orig[c][i])
      {
        t := t[j := t[j] || input[j][i]];
      }
      inout[i] := t;
      assert t == Column(orig, i);
    }
  }

  // ---- Eklundh ----

  /** The number with the low k bits of lo and the other bits of hi. */
  function Mix(hi: nat, lo: nat, k: nat): nat
    decreases k, hi, lo
  {
    if k == 0 then hi else lo % 2 + 2 * Mix(hi / 2, lo / 2, k - 1)
  }

  /** x with bit k inverted. */
  function Flip(x: nat, k: nat): nat {
    FlipFacts(x, k);
    if Bit(x, k) then x - Pow2(k) else x + Pow2(k)
  }

  lemma {:induction false} FlipFacts(x: nat, k: nat)
    ensures Bit(x, k) ==> x >= Pow2(k) && !Bit(x - Pow2(k), k)
    ensures Bit(x, k) ==> Low(x - Pow2(k), k) == Low(x, k) && High(x - Pow2(k), k + 1) == High(x, k + 1)
    ensures !Bit(x, k) ==> Bit(x + Pow2(k), k)
    ensures !Bit(x, k) ==> Low(x + Pow2(k), k) == Low(x, k) && High(x + Pow2(k), k + 1) == High(x, k + 1)
    ensures x >= Pow2(k) && !Bit(x, k) ==> Bit(x - Pow2(k), k)
    ensures Bit(x, k) ==> !Bit(x + Pow2(k), k)
    decreases k
  {
    if k > 0 {
      var p := Pow2(k - 1);
      FlipFacts(x / 2, k - 1);
      assert (x + Pow2(k)) / 2 == x / 2 + p && (x + Pow2(k)) % 2 == x % 2;
      if x >= Pow2(k) {
        assert (x - Pow2(k)) / 2 == x / 2 - p && (x - Pow2(k)) % 2 == x % 2;
      }
    }
  }

  lemma {:induction false} FlipBound(x: nat, k: nat, n: nat)
    requires k < n && x < Pow2(n)
    ensures Flip(x, k) < Pow2(n)
  {
    LowHigh(x, k + 1);
    FlipFacts(x, k);
    HighBound(x, n, k + 1);
    var y := Flip(x, k);
    LowHigh(y, k + 1);
    LowBound(y, k + 1);
    JoinBound(Low(y, k + 1), High(x, k + 1), n, k + 1);
  }

  lemma {:induction false} JoinBound(low: nat, high: nat, n: nat, k: nat)
    requires k <= n && low < Pow2(k) && high < Pow2(n - k)
    ensures low + Pow2(k) * high < Pow2(n)
    decreases k
  {
    if k > 0 {
      JoinBound(low / 2, high, n - 1, k - 1);
      MulTwo(Pow2(k - 1), high);
    }
  }

  lemma {:induction false} MixBound(hi: nat, lo: nat, k: nat, n: nat)
    requires hi < Pow2(n) && k <= n
    ensures Mix(hi, lo, k) < Pow2(n)
    decreases k
  {
    if k > 0 {
      MixBound(hi / 2, lo / 2, k - 1, n - 1);
    }
  }

  lemma {:induction false} MixAll(hi: nat, lo: nat, n: nat)
    requires hi < Pow2(n) && lo < Pow2(n)
    ensures Mix(hi, lo, n) == lo
    decreases n
  {
    if n > 0 {
      MixAll(hi / 2, lo / 2, n - 1);
    }
  }

  /** Taking one bit more from lo changes nothing where hi and lo agree on it; where they differ it
      is the same as inverting the bit in both first. */
  lemma {:induction false} MixStep(hi: nat, lo: nat, k: nat)
    ensures Bit(hi, k) == Bit(lo, k) ==> Mix(hi, lo, k) == Mix(hi, lo, k + 1)
    ensures Bit(hi, k) != Bit(lo, k) ==> Mix(hi, lo, k) == Mix(Flip(hi, k), Flip(lo, k), k + 1)
    decreases k
  {
    if k > 0 {
      MixStep(hi / 2, lo / 2, k - 1);
      FlipHalf(hi, k);
      FlipHalf(lo, k);
    }
  }

  lemma FlipHalf(x: nat, k: nat)
    requires k > 0
    ensures Flip(x, k) % 2 == x % 2 && Flip(x, k) / 2 == Flip(x / 2, k - 1)
  {
  }

  /** The mask of round k: the columns whose bit k is clear, and its complement. */
  function TransMask(k: nat): Block {
    seq(128, c requires 0 <= c < 128 => !Bit(c, k))
  }

  function TransMaskInv(k: nat): Block {
    seq(128, c requires 0 <= c < 128 => Bit(c, k))
  }

  /** What the exchange of a row pair (d, dd), at distance 2^k, leaves in either row. */
  function ExchangeLow(d: Block, dd: Block, k: nat): Block {
    Xor(And(d, TransMask(k)), Shl(And(dd, TransMask(k)), Pow2(k)))
  }

  function ExchangeHigh(d: Block, dd: Block, k: nat): Block {
    Xor(And(dd, TransMaskInv(k)), Shr(And(d, TransMaskInv(k)), Pow2(k)))
  }

  /** Column c stays where the row's and the column's bit k agree, and comes from the other row and
      the inverted column where they differ. */
  lemma ExchangeEntry(d: Block, dd: Block, k: nat, c: nat)
    requires k < 7 && c < 128
    ensures Flip(c, k) < 128
    ensures ExchangeLow(d, dd, k)[c] == if Bit(c, k) then dd[Flip(c, k)] else d[c]
    ensures ExchangeHigh(d, dd, k)[c] == if Bit(c, k) then dd[c] else d[Flip(c, k)]
  {
    hide Bit, Pow2;
    Pow2Of7();
    FlipBound(c, k, 7);
    FlipFacts(c, k);
  }

  lemma Pow2Of7()
    ensures Pow2(7) == 128
  {
    Pow2Step(0);
    Pow2Step(2);
    Pow2Step(4);
    Pow2Step(6);
  }

  // ---- Any matrix of 2^b x 2^b bits ----

  ghost predicate Square(m: seq<seq<bool>>, b: nat) {
    |m| == Pow2(b) && forall r | 0 <= r < |m| :: |m[r]| == Pow2(b)
  }

  /** m is orig with the bits from k up of the row and the column index exchanged. */
  ghost predicate Exchanged(orig: seq<seq<bool>>, m: seq<seq<bool>>, k: nat, b: nat)
    requires Square(orig, b) && Square(m, b)
  {
    forall r, c | 0 <= r < Pow2(b) && 0 <= c < Pow2(b) ::
      Mix(c, r, k) < Pow2(b) && Mix(r, c, k) < Pow2(b) && m[r][c] == orig[Mix(c, r, k)][Mix(r, c, k)]
  }

  /** One round exchanges bit k: an entry stays where the two indices agree on it. */
  ghost predicate RoundEntry(m: seq<seq<bool>>, m': seq<seq<bool>>, k: nat, b: nat, r: nat, c: nat)
    requires Square(m, b) && Square(m', b) && r < Pow2(b) && c < Pow2(b)
  {
    && Flip(r, k) < Pow2(b) && Flip(c, k) < Pow2(b)
    && m'[r][c] == if Bit(r, k) == Bit(c, k) then m[r][c] else m[Flip(r, k)][Flip(c, k)]
  }

  ghost predicate Round(m: seq<seq<bool>>, m': seq<seq<bool>>, k: nat, b: nat)
    requires Square(m, b) && Square(m', b)
  {
    forall r: nat, c: nat | r < Pow2(b) && c < Pow2(b) :: RoundEntry(m, m', k, b, r, c)
  }

  lemma RoundExchanges(orig: seq<seq<bool>>, m: seq<seq<bool>>, m': seq<seq<bool>>, k: nat, b: nat)
    requires Square(orig, b) && Square(m, b) && Square(m', b) && k < b
    requires Exchanged(orig, m, k + 1, b) && Round(m, m', k, b)
    ensures Exchanged(orig, m', k, b)
  {
    hide Mix, Pow2, Bit, Flip;
    forall r, c | 0 <= r < Pow2(b) && 0 <= c < Pow2(b)
      ensures Mix(c, r, k) < Pow2(b) && Mix(r, c, k) < Pow2(b) && m'[r][c] == orig[Mix(c, r, k)][Mix(r, c, k)]
    {
      MixBound(c, r, k, b);
      MixBound(r, c, k, b);
      MixStep(c, r, k);
      MixStep(r, c, k);
      assert RoundEntry(m, m', k, b, r, c);
    }
  }

  lemma ExchangedNone(orig: seq<seq<bool>>, b: nat)
    requires Square(orig, b)
    ensures Exchanged(orig, orig, b, b)
  {
    hide Mix, Pow2;
    forall r, c | 0 <= r < Pow2(b) && 0 <= c < Pow2(b)
      ensures Mix(c, r, b) == r && Mix(r, c, b) == c
    {
      MixAll(c, r, b);
      MixAll(r, c, b);
    }
  }

  lemma ExchangedAll(orig: seq<seq<bool>>, m: seq<seq<bool>>, b: nat)
    requires Square(orig, b) && Square(m, b) && Exchanged(orig, m, 0, b)
    ensures forall r, c | 0 <= r < Pow2(b) && 0 <= c < Pow2(b) :: m[r][c] == orig[c][r]
  {
    hide Pow2;
    forall r, c | 0 <= r < Pow2(b) && 0 <= c < Pow2(b)
      ensures m[r][c] == orig[c][r]
    {
      assert Mix(c, r, 0) == c && Mix(r, c, 0) == r;
    }
  }

  /** Eklundh's method for every power of two: b rounds, from the top bit down, transpose; after i of
      them the top i bits of the two indices are exchanged. */
  lemma {:induction false} RoundsTranspose(ms: seq<seq<seq<bool>>>, b: nat, i: nat)
    requires |ms| == b + 1 && i <= b && forall j | 0 <= j <= b :: Square(ms[j], b)
    requires forall j | 0 <= j < b :: Round(ms[j], ms[j + 1], b - 1 - j, b)
    ensures Exchanged(ms[0], ms[i], b - i, b)
    ensures i == b ==> forall r, c | 0 <= r < Pow2(b) && 0 <= c < Pow2(b) :: ms[b][r][c] == ms[0][c][r]
  {
    hide Exchanged, Round, Square, Pow2;
    if i == 0 {
      ExchangedNone(ms[0], b);
    } else {
      RoundsTranspose(ms, b, i - 1);
      RoundExchanges(ms[0], ms[i - 1], ms[i], b - i, b);
    }
    if i == b {
      ExchangedAll(ms[0], ms[b], b);
    }
  }

  // ---- The matrices of the source ----

  lemma MatrixIsSquare(m: Matrix)
    ensures Square(m, 7)
  {
    Pow2Of7();
  }

  /** What a round leaves in a row. */
  ghost predicate RoundRow(m: Matrix, row: Block, r: nat, k: nat)
    requires r < 128 && k < 7
  {
    && Flip(r, k) < 128
    && row == if Bit(r, k) then ExchangeHigh(m[Flip(r, k)], m[r], k) else ExchangeLow(m[r], m[Flip(r, k)], k)
  }

  lemma FlipTwice(x: nat, k: nat)
    ensures Flip(Flip(x, k), k) == x && Bit(Flip(x, k), k) == !Bit(x, k)
    ensures Low(Flip(x, k), k) == Low(x, k) && High(Flip(x, k), k + 1) == High(x, k + 1)
  {
    FlipFacts(x, k);
  }

  lemma RowsAreRound(m: Matrix, m': Matrix, k: nat)
    requires k < 7 && forall r | 0 <= r < 128 :: RoundRow(m, m'[r], r, k)
    ensures Square(m, 7) && Square(m', 7) && Round(m, m', k, 7)
  {
    hide Bit, Pow2, ExchangeHigh, ExchangeLow, Flip;
    Pow2Of7();
    forall r: nat, c: nat | r < 128 && c < 128
      ensures RoundEntry(m, m', k, 7, r, c)
    {
      assert RoundRow(m, m'[r], r, k);
      if Bit(r, k) {
        ExchangeEntry(m[Flip(r, k)], m[r], k, c);
      } else {
        ExchangeEntry(m[r], m[Flip(r, k)], k, c);
      }
    }
  }

  /** With all bits exchanged, that is the transpose. */
  lemma ExchangedIsTransposed(orig: Matrix, m: Matrix)
    requires Square(orig, 7) && Square(m, 7) && Exchanged(orig, m, 0, 7)
    ensures m == Transposed(orig)
  {
    hide Exchanged, Transposed, Pow2;
    Pow2Of7();
    ExchangedAll(orig, m, 7);
    EntriesTransposed(orig, m);
  }

  lemma EntriesTransposed(orig: Matrix, m: Matrix)
    requires forall r, c | 0 <= r < 128 && 0 <= c < 128 :: m[r][c] == orig[c][r]
    ensures m == Transposed(orig)
  {
    TransposeEntries(orig, m);
  }

  /** Row r belongs to a pair the round has already exchanged: pairs run by j, then by i. */
  predicate Done(r: nat, k: nat, j: nat, i: nat) {
    High(r, k + 1) < j || (High(r, k + 1) == j && Low(r, k) < i)
  }

  /** The two rows of pair (j, i) of a round at distance 2^k. */
  lemma PairRows(k: nat, j: nat, i: nat)
    requires k < 7 && j < Pow2(6 - k) && i < Pow2(k)
    ensures var r1 := i + Pow2(k + 1) * j;
            && r1 + Pow2(k) < 128 && !Bit(r1, k) && Flip(r1, k) == r1 + Pow2(k) && Bit(r1 + Pow2(k), k)
            && forall r | 0 <= r < 128 :: High(r, k + 1) == j && Low(r, k) == i <==> r == r1 || r == r1 + Pow2(k)
  {
    hide Low, High, Pow2;
    var r1 := i + Pow2(k + 1) * j;
    Pow2Of7();
    Pow2Step(k);
    LowHighJoin(i, j, k + 1);
    JoinBound(i, j, 7, k + 1);
    LowBits(r1, k);
    LowBound(r1, k);
    assert !Bit(r1, k);
    FlipFacts(r1, k);
    FlipBound(r1, k, 7);
    forall r | 0 <= r < 128
      ensures High(r, k + 1) == j && Low(r, k) == i <==> r == r1 || r == r1 + Pow2(k)
    {
      LowBits(r, k);
      LowHigh(r, k + 1);
    }
  }

  /** `EklundhTranspose128`. */
  method EklundhTranspose128(inout: array<Block>)
    requires inout.Length == 128
    modifies inout
    ensures inout[..] == Transposed(old(inout[..]))
  {
    hide Exchanged, Transposed, Pow2, Square;
    ghost var orig: Matrix := inout[..];
    MatrixIsSquare(orig);
    ExchangedNone(orig, 7);
    Pow2Of7();
    Pow2Step(6);
    Pow2Step(0);
    var width, nswaps := 64, 1;
    for i := 0 to 7
      invariant width == (if i == 7 then 0 else Pow2(6 - i)) && nswaps == Pow2(i)
      invariant Square(inout[..], 7) && Exchanged(orig, inout[..], 7 - i, 7)
    {
      EklundhRound(inout, width, nswaps, 6 - i, orig);
      Pow2Step(i);
      if i < 6 {
        Pow2Step(5 - i);
      }
      nswaps := nswaps * 2;
      width := width / 2;
    }
    ExchangedIsTransposed(orig, inout[..]);
  }

  /** One round, at distance width = 2^k. */
  method EklundhRound(inout: array<Block>, width: nat, nswaps: nat, k: nat, ghost orig: Matrix)
    requires inout.Length == 128 && k < 7 && width == Pow2(k) && nswaps == Pow2(6 - k)
    requires Square(orig, 7) && Square(inout[..], 7) && Exchanged(orig, inout[..], k + 1, 7)
    modifies inout
    ensures Square(inout[..], 7) && Exchanged(orig, inout[..], k, 7)
  {
    hide Exchanged, Square, Round, Pow2, Low, High, Bit, Flip, ExchangeLow, ExchangeHigh;
    ghost var m: Matrix := inout[..];
    RoundStart(k);
    for j := 0 to nswaps
      invariant forall r | 0 <= r < 128 :: if Done(r, k, j, 0) then RoundRow(m, inout[r], r, k) else inout[r] == m[r]
    {
      for i := 0 to width
        invariant forall r | 0 <= r < 128 :: if Done(r, k, j, i) then RoundRow(m, inout[r], r, k) else inout[r] == m[r]
      {
        PairRows(k, j, i);
        Pow2Step(k);
        MulTwo(width, j);
        var i1 := i + 2 * width * j;
        var i2 := i + width + 2 * width * j;
        assert i1 == i + Pow2(k + 1) * j && i2 == i1 + width;
        FlipTwice(i1, k);
        var t, tt := inout[i1], inout[i2];
        inout[i1] := ExchangeLow(t, tt, k);
        inout[i2] := ExchangeHigh(t, tt, k);
      }
      RowEnd(k, j);
    }
    RoundEnd(k, nswaps);
    RowsAreRound(m, inout[..], k);
    RoundExchanges(orig, m, inout[..], k, 7);
  }

  lemma RoundStart(k: nat)
    ensures forall r: nat :: !Done(r, k, 0, 0)
  {
  }

  lemma RowEnd(k: nat, j: nat)
    ensures forall r: nat :: Done(r, k, j, Pow2(k)) <==> Done(r, k, j + 1, 0)
  {
    forall r: nat
      ensures Done(r, k, j, Pow2(k)) <==> Done(r, k, j + 1, 0)
    {
      LowBound(r, k);
    }
  }

  lemma RoundEnd(k: nat, nswaps: nat)
    requires k < 7 && nswaps == Pow2(6 - k)
    ensures forall r | 0 <= r < 128 :: Done(r, k, nswaps, 0)
  {
    forall r | 0 <= r < 128
      ensures Done(r, k, nswaps, 0)
    {
      Pow2Of7();
      HighBound(r, 7, k + 1);
    }
  }
}
