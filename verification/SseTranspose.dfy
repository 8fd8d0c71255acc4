/** The SSE transposes of yasl/mpctools/ot/utils.cc: 16 x 16 sub-squares are read with byte loads
    and written back, transposed, with byte-mask moves, in the matrix itself. */
module SseTranspose {
  import opened Words
  import opened Transpose

  // ---- Blocks as SSE registers ----

  /** `_mm_slli_epi64`: both 64-bit lanes shifted left. */
  function SlliEpi64(b: Block, s: nat): Block {
    seq(128, i requires 0 <= i < 128 => i % 64 >= s && b[i - s])
  }

  /** `_mm_movemask_epi8`: the top bit of each of the 16 bytes. */
  function MoveMask(b: Block): (r: seq<bool>)
    ensures |r| == 16
  {
    seq(16, l requires 0 <= l < 16 => b[8 * l + 7])
  }

  /** Writes 16-bit word y of a row. */
  function SetU16(row: Block, y: nat, word: seq<bool>): Block
    requires y < 8 && |word| == 16
  {
    row[..16 * y] + word + row[16 * y + 16..]
  }

  /** The byte column 2y + odd of rows 16x .. 16x + 15, one byte after the other. */
  function LoadBytes(m: Matrix, x: nat, y: nat, odd: nat): Block
    requires x < 8 && y < 8 && odd < 2
  {
    seq(128, i requires 0 <= i < 128 => m[16 * x + i / 8][16 * y + 8 * odd + i % 8])
  }

  /** After s shifts every byte holds its own bits, moved up by s; its low bits are of no interest. */
  predicate Shifted(orig: Block, b: Block, s: nat) {
    forall i | 0 <= i < 128 && i % 8 >= s :: b[i] == orig[i - s]
  }

  lemma ShiftOnce(orig: Block, b: Block, s: nat)
    requires Shifted(orig, b, s)
    ensures Shifted(orig, SlliEpi64(b, 1), s + 1)
  {
  }

  lemma ShiftDirect(orig: Block, s: nat)
    ensures Shifted(orig, SlliEpi64(orig, s), s)
  {
  }

  /** Entry (r, c) of the square (x, y) once the pair of blocks has been stored there. */
  function StoredBit(in0: Block, in1: Block, r: nat, c: nat): bool {
    if r % 16 < 8 then in0[8 * (c % 16) + r % 16] else in1[8 * (c % 16) + r % 16 - 8]
  }

  /** Row r of the square has been stored after s mask moves: they fill either half from the top bit down. */
  predicate Stored(r: nat, s: nat) {
    r % 8 >= 8 - s
  }

  lemma SetU16Entry(row: Block, y: nat, word: seq<bool>, c: nat)
    requires y < 8 && |word| == 16 && c < 128
    ensures SetU16(row, y, word)[c] == if c / 16 == y then word[c % 16] else row[c]
  {
  }

  // ---- 128 x 128 ----

  /** The first 8n bits of out are those of the byte column. */
  predicate Loaded(m: Matrix, x: nat, y: nat, odd: nat, out: Block, n: nat)
    requires x < 8 && y < 8 && odd < 2
  {
    forall i | 0 <= i < 128 && i / 8 < n :: out[i] == LoadBytes(m, x, y, odd)[i]
  }

  /** Writes byte l of a block. */
  function SetByte(b: Block, l: nat, byte: seq<bool>): Block
    requires l < 16 && |byte| == 8
  {
    b[..8 * l] + byte + b[8 * l + 8..]
  }

  lemma LoadOneByte(m: Matrix, x: nat, y: nat, odd: nat, out: Block, l: nat)
    requires x < 8 && y < 8 && odd < 2 && l < 16 && Loaded(m, x, y, odd, out, l)
    ensures var from := 16 * y + 8 * odd;
            Loaded(m, x, y, odd, SetByte(out, l, m[16 * x + l][from..from + 8]), l + 1)
  {
  }

  lemma LoadedAll(m: Matrix, x: nat, y: nat, odd: nat, out: Block)
    requires x < 8 && y < 8 && odd < 2 && Loaded(m, x, y, odd, out, 16)
    ensures out == LoadBytes(m, x, y, odd)
  {
  }

  /** `sse_loadSubSquare`. */
  method LoadSubSquare(m: array<Block>, x: nat, y: nat) returns (out0: Block, out1: Block)
    requires m.Length == 128 && x < 8 && y < 8
    ensures out0 == LoadBytes(m[..], x, y, 0) && out1 == LoadBytes(m[..], x, y, 1)
  {
    hide SetByte, LoadBytes;
    out0, out1 := Zero(), Zero();
    for l := 0 to 16
      invariant Loaded(m[..], x, y, 0, out0, l) && Loaded(m[..], x, y, 1, out1, l)
    {
      LoadOneByte(m[..], x, y, 0, out0, l);
      LoadOneByte(m[..], x, y, 1, out1, l);
      out0 := SetByte(out0, l, m[16 * x + l][16 * y..16 * y + 8]);
      out1 := SetByte(out1, l, m[16 * x + l][16 * y + 8..16 * y + 16]);
    }
    LoadedAll(m[..], x, y, 0, out0);
    LoadedAll(m[..], x, y, 1, out1);
  }

  /** `sse_transposeSubSquare`: stores a loaded pair, transposed, into the square (x, y). */
  method TransposeSubSquare(m: array<Block>, in0: Block, in1: Block, x: nat, y: nat)
    requires m.Length == 128 && x < 8 && y < 8
    modifies m
    ensures forall r, c | 0 <= r < 128 && 0 <= c < 128 ::
              m[r][c] == if r / 16 == x && c / 16 == y then StoredBit(in0, in1, r, c) else old(m[r])[c]
  {
    hide SlliEpi64, Shifted, SetU16;
    var b0, b1 := in0, in1;
    ShiftNone(in0);
    ShiftNone(in1);
    for j := 0 to 8
      invariant Shifted(in0, b0, j) && Shifted(in1, b1, j)
      invariant forall r, c | 0 <= r < 128 && 0 <= c < 128 ::
          m[r][c] == if r / 16 == x && c / 16 == y && Stored(r, j) then StoredBit(in0, in1, r, c) else old(m[r])[c]
    {
      StoreTwoRows(m, in0, in1, b0, b1, x, y, j);
      ShiftOnce(in0, b0, j);
      ShiftOnce(in1, b1, j);
      b0, b1 := SlliEpi64(b0, 1), SlliEpi64(b1, 1);
    }
  }

  lemma ShiftNone(b: Block)
    ensures Shifted(b, b, 0)
  {
  }

  /** One step of the loop: the masks of both blocks go to rows 7 - j and 15 - j of the square. */
  method StoreTwoRows(m: array<Block>, ghost in0: Block, ghost in1: Block, b0: Block, b1: Block, x: nat, y: nat, j: nat)
    requires m.Length == 128 && x < 8 && y < 8 && j < 8
    requires Shifted(in0, b0, j) && Shifted(in1, b1, j)
    modifies m
    ensures forall r, c | 0 <= r < 128 && 0 <= c < 128 ::
              m[r][c] == if r / 16 == x && c / 16 == y && r % 8 == 7 - j then StoredBit(in0, in1, r, c) else old(m[r])[c]
  {
    hide SlliEpi64, SetU16;
    var r0, r1 := 16 * x + 7 - j, 16 * x + 15 - j;
    m[r0] := SetU16(m[r0], y, MoveMask(b0));
    m[r1] := SetU16(m[r1], y, MoveMask(b1));
    forall r, c | 0 <= r < 128 && 0 <= c < 128
      ensures m[r][c] == if r / 16 == x && c / 16 == y && r % 8 == 7 - j then StoredBit(in0, in1, r, c) else old(m[r])[c]
    {
      if r == r0 {
        SetU16Entry(old(m[r0]), y, MoveMask(b0), c);
      } else if r == r1 {
        SetU16Entry(old(m[r1]), y, MoveMask(b1), c);
      }
    }
  }

  /** Square (x, y) lies in the part that step (j, k) of the loops has already transposed: the
      squares with both indices below j, the diagonal one, and the pairs (j, 0 .. k - 1). */
  predicate Treated(x: nat, y: nat, j: nat, k: nat) {
    || (x < j && y < j)
    || (x == j && (y < k || y == j))
    || (y == j && x < k)
  }

  /** The treated squares hold the transpose, the others are as they were. */
  function Expected(orig: Matrix, r: nat, c: nat, j: nat, k: nat): bool
    requires r < 128 && c < 128
  {
    if Treated(r / 16, c / 16, j, k) then orig[c][r] else orig[r][c]
  }

  ghost predicate Progress(orig: Matrix, m: Matrix, j: nat, k: nat) {
    forall r, c | 0 <= r < 128 && 0 <= c < 128 :: m[r][c] == Expected(orig, r, c, j, k)
  }

  /** A pair loaded from an untouched square (x, y) holds, as stored bits, its transpose. */
  lemma LoadedTransposed(m: Matrix, x: nat, y: nat, r: nat, c: nat)
    requires x < 8 && y < 8 && r < 128 && c < 128 && r / 16 == y && c / 16 == x
    ensures StoredBit(LoadBytes(m, x, y, 0), LoadBytes(m, x, y, 1), r, c) == m[c][r]
  {
  }

  /** All squares with both indices below j are transposed, the others as they were. */
  function ExpectedBetween(orig: Matrix, r: nat, c: nat, j: nat): bool
    requires r < 128 && c < 128
  {
    if r / 16 < j && c / 16 < j then orig[c][r] else orig[r][c]
  }

  ghost predicate Between(orig: Matrix, m: Matrix, j: nat) {
    forall r, c | 0 <= r < 128 && 0 <= c < 128 :: m[r][c] == ExpectedBetween(orig, r, c, j)
  }

  lemma ProgressNone(orig: Matrix)
    ensures Between(orig, orig, 0)
  {
  }

  lemma ProgressEnd(orig: Matrix, m: Matrix, j: nat)
    requires Progress(orig, m, j, j)
    ensures Between(orig, m, j + 1)
  {
  }

  lemma DiagonalProgress(orig: Matrix, was: Matrix, now: Matrix, j: nat)
    requires j < 8 && Between(orig, was, j)
    requires forall r, c | 0 <= r < 128 && 0 <= c < 128 ::
               now[r][c] ==
               if r / 16 == j && c / 16 == j then StoredBit(LoadBytes(was, j, j, 0), LoadBytes(was, j, j, 1), r, c)
               else was[r][c]
    ensures Progress(orig, now, j, 0)
  {
    hide StoredBit, LoadBytes;
    forall r, c | 0 <= r < 128 && 0 <= c < 128
      ensures now[r][c] == Expected(orig, r, c, j, 0)
    {
      if r / 16 == j && c / 16 == j {
        LoadedTransposed(was, j, j, r, c);
      }
    }
  }

  /** `SseTranspose128`. */
  method SseTranspose128(inout: array<Block>)
    requires inout.Length == 128
    modifies inout
    ensures inout[..] == Transposed(old(inout[..]))
  {
    hide Transposed, Column;
    ghost var orig: Matrix := inout[..];
    var mtx := new Block[128](i reads inout requires 0 <= i < 128 => inout[i]);
    assert mtx[..] == orig;
    ProgressNone(orig);
    for j := 0 to 8
      invariant Between(orig, mtx[..], j)
    {
      TransposeDiagonal(mtx, j, orig);
      for k := 0 to j
        invariant Progress(orig, mtx[..], j, k)
      {
        SwapSquares(mtx, j, k, orig);
      }
      ProgressEnd(orig, mtx[..], j);
    }
    assert IsTranspose(orig, mtx[..]);
    TransposeEntries(orig, mtx[..]);
    forall i | 0 <= i < 128 {
      inout[i] := mtx[i];
    }
    assert inout[..] == mtx[..];
  }

  method TransposeDiagonal(mtx: array<Block>, j: nat, ghost orig: Matrix)
    requires mtx.Length == 128 && j < 8
    requires Between(orig, mtx[..], j)
    modifies mtx
    ensures Progress(orig, mtx[..], j, 0)
  {
    hide StoredBit, LoadBytes;
    var a0, a1 := LoadSubSquare(mtx, j, j);
    ghost var was: Matrix := mtx[..];
    TransposeSubSquare(mtx, a0, a1, j, j);
    DiagonalProgress(orig, was, mtx[..], j);
  }

  /** One pair of squares off the diagonal; both are loaded before either is overwritten. */
  method SwapSquares(mtx: array<Block>, j: nat, k: nat, ghost orig: Matrix)
    requires mtx.Length == 128 && k < j < 8
    requires Progress(orig, mtx[..], j, k)
    modifies mtx
    ensures Progress(orig, mtx[..], j, k + 1)
  {
    hide StoredBit, LoadBytes;
    var a0, a1 := LoadSubSquare(mtx, k, j);
    var b0, b1 := LoadSubSquare(mtx, j, k);
    ghost var was: Matrix := mtx[..];
    TransposeSubSquare(mtx, a0, a1, j, k);
    TransposeSubSquare(mtx, b0, b1, k, j);
    SwapProgress(orig, was, mtx[..], j, k);
  }

  /** Storing the transposes of squares (k, j) and (j, k) in each other's place is one step forward. */
  lemma SwapProgress(orig: Matrix, was: Matrix, now: Matrix, j: nat, k: nat)
    requires k < j < 8 && Progress(orig, was, j, k)
    requires forall r, c | 0 <= r < 128 && 0 <= c < 128 ::
               now[r][c] ==
               if r / 16 == k && c / 16 == j then StoredBit(LoadBytes(was, j, k, 0), LoadBytes(was, j, k, 1), r, c)
               else if r / 16 == j && c / 16 == k then StoredBit(LoadBytes(was, k, j, 0), LoadBytes(was, k, j, 1), r, c)
               else was[r][c]
    ensures Progress(orig, now, j, k + 1)
  {
    hide StoredBit, LoadBytes;
    forall r, c | 0 <= r < 128 && 0 <= c < 128
      ensures now[r][c] == Expected(orig, r, c, j, k + 1)
    {
      if r / 16 == j && c / 16 == k {
        LoadedTransposed(was, k, j, r, c);
      } else if r / 16 == k && c / 16 == j {
        LoadedTransposed(was, j, k, r, c);
      }
    }
  }

  // ---- 128 x 1024: eight 128 x 128 column blocks side by side ----

  /** Column block i. */
  function Slice(m: array2<Block>, i: nat): Matrix
    requires m.Length0 == 128 && m.Length1 == 8 && i < 8
    reads m
  {
    seq(128, r requires 0 <= r < 128 reads m => m[r, i])
  }

  /** `SseLoadSubSquarex`, its sixteen byte moves per block as a loop. */
  method LoadSubSquarex(m: array2<Block>, x: nat, y: nat, i: nat) returns (out0: Block, out1: Block)
    requires m.Length0 == 128 && m.Length1 == 8 && x < 8 && y < 8 && i < 8
    ensures out0 == LoadBytes(Slice(m, i), x, y, 0) && out1 == LoadBytes(Slice(m, i), x, y, 1)
  {
    hide SetByte, LoadBytes;
    out0, out1 := Zero(), Zero();
    for l := 0 to 16
      invariant Loaded(Slice(m, i), x, y, 0, out0, l) && Loaded(Slice(m, i), x, y, 1, out1, l)
    {
      LoadOneByte(Slice(m, i), x, y, 0, out0, l);
      LoadOneByte(Slice(m, i), x, y, 1, out1, l);
      out0 := SetByte(out0, l, m[16 * x + l, i][16 * y..16 * y + 8]);
      out1 := SetByte(out1, l, m[16 * x + l, i][16 * y + 8..16 * y + 16]);
    }
    LoadedAll(Slice(m, i), x, y, 0, out0);
    LoadedAll(Slice(m, i), x, y, 1, out1);
  }

  /** `SseTransposeSubSquarex`, its eight shifts as a loop. */
  method TransposeSubSquarex(m: array2<Block>, in0: Block, in1: Block, x: nat, y: nat, i: nat)
    requires m.Length0 == 128 && m.Length1 == 8 && x < 8 && y < 8 && i < 8
    modifies m
    ensures forall r, b | 0 <= r < 128 && 0 <= b < 8 && b != i :: m[r, b] == old(m[r, b])
    ensures forall r, c | 0 <= r < 128 && 0 <= c < 128 ::
              m[r, i][c] == if r / 16 == x && c / 16 == y then StoredBit(in0, in1, r, c) else old(m[r, i])[c]
  {
    hide SlliEpi64, Shifted, SetU16;
    for j := 0 to 8
      invariant forall r, b | 0 <= r < 128 && 0 <= b < 8 && b != i :: m[r, b] == old(m[r, b])
      invariant forall r, c | 0 <= r < 128 && 0 <= c < 128 ::
          m[r, i][c] == if r / 16 == x && c / 16 == y && Stored(r, j) then StoredBit(in0, in1, r, c) else old(m[r, i])[c]
    {
      ShiftDirect(in0, j);
      ShiftDirect(in1, j);
      StoreTwoRowsx(m, in0, in1, SlliEpi64(in0, j), SlliEpi64(in1, j), x, y, i, j);
    }
  }

  method StoreTwoRowsx(m: array2<Block>, ghost in0: Block, ghost in1: Block, b0: Block, b1: Block,
                       x: nat, y: nat, i: nat, j: nat)
    requires m.Length0 == 128 && m.Length1 == 8 && x < 8 && y < 8 && i < 8 && j < 8
    requires Shifted(in0, b0, j) && Shifted(in1, b1, j)
    modifies m
    ensures forall r, b | 0 <= r < 128 && 0 <= b < 8 && b != i :: m[r, b] == old(m[r, b])
    ensures forall r, c | 0 <= r < 128 && 0 <= c < 128 ::
              m[r, i][c] ==
              if r / 16 == x && c / 16 == y && r % 8 == 7 - j then StoredBit(in0, in1, r, c) else old(m[r, i])[c]
  {
    hide SlliEpi64, SetU16;
    var r0, r1 := 16 * x + 7 - j, 16 * x + 15 - j;
    m[r0, i] := SetU16(m[r0, i], y, MoveMask(b0));
    m[r1, i] := SetU16(m[r1, i], y, MoveMask(b1));
    forall r, c | 0 <= r < 128 && 0 <= c < 128
      ensures m[r, i][c] ==
              if r / 16 == x && c / 16 == y && r % 8 == 7 - j then StoredBit(in0, in1, r, c) else old(m[r, i])[c]
    {
      if r == r0 {
        SetU16Entry(old(m[r0, i]), y, MoveMask(b0), c);
      } else if r == r1 {
        SetU16Entry(old(m[r1, i]), y, MoveMask(b1), c);
      }
    }
  }

  /** `SseTranspose128x1024`: every column block is replaced by its transpose. */
  method SseTranspose128x1024(inout: array2<Block>)
    requires inout.Length0 == 128 && inout.Length1 == 8
    modifies inout
    ensures forall b | 0 <= b < 8 :: Slice(inout, b) == Transposed(old(Slice(inout, b)))
  {
    hide Transposed, Slice;
    for i := 0 to 8
      invariant forall b | 0 <= b < 8 ::
          Slice(inout, b) == if b < i then Transposed(old(Slice(inout, b))) else old(Slice(inout, b))
    {
      TransposeSlice(inout, i);
    }
  }

  method TransposeSlice(inout: array2<Block>, i: nat)
    requires inout.Length0 == 128 && inout.Length1 == 8 && i < 8
    modifies inout
    ensures forall b | 0 <= b < 8 ::
              Slice(inout, b) == if b == i then Transposed(old(Slice(inout, b))) else old(Slice(inout, b))
  {
    hide Transposed, Expected;
    ghost var orig := Slice(inout, i);
    ProgressNone(orig);
    for j := 0 to 8
      invariant forall b | 0 <= b < 8 && b != i :: Slice(inout, b) == old(Slice(inout, b))
      invariant Between(orig, Slice(inout, i), j)
    {
      TransposeDiagonalx(inout, i, j, orig);
      for k := 0 to j
        invariant forall b | 0 <= b < 8 && b != i :: Slice(inout, b) == old(Slice(inout, b))
        invariant Progress(orig, Slice(inout, i), j, k)
      {
        SwapSquaresx(inout, i, j, k, orig);
      }
      ProgressEnd(orig, Slice(inout, i), j);
    }
    assert IsTranspose(orig, Slice(inout, i));
    TransposeEntries(orig, Slice(inout, i));
  }

  method TransposeDiagonalx(m: array2<Block>, i: nat, j: nat, ghost orig: Matrix)
    requires m.Length0 == 128 && m.Length1 == 8 && i < 8 && j < 8
    requires Between(orig, Slice(m, i), j)
    modifies m
    ensures forall b | 0 <= b < 8 && b != i :: Slice(m, b) == old(Slice(m, b))
    ensures Progress(orig, Slice(m, i), j, 0)
  {
    hide StoredBit, LoadBytes;
    var a0, a1 := LoadSubSquarex(m, j, j, i);
    ghost var was := Slice(m, i);
    TransposeSubSquarex(m, a0, a1, j, j, i);
    DiagonalProgress(orig, was, Slice(m, i), j);
  }

  method SwapSquaresx(m: array2<Block>, i: nat, j: nat, k: nat, ghost orig: Matrix)
    requires m.Length0 == 128 && m.Length1 == 8 && i < 8 && k < j < 8
    requires Progress(orig, Slice(m, i), j, k)
    modifies m
    ensures forall b | 0 <= b < 8 && b != i :: Slice(m, b) == old(Slice(m, b))
    ensures Progress(orig, Slice(m, i), j, k + 1)
  {
    hide StoredBit, LoadBytes;
    var a0, a1 := LoadSubSquarex(m, k, j, i);
    var b0, b1 := LoadSubSquarex(m, j, k, i);
    ghost var was := Slice(m, i);
    TransposeSubSquarex(m, a0, a1, j, k, i);
    TransposeSubSquarex(m, b0, b1, k, j, i);
    SwapProgress(orig, was, Slice(m, i), j, k);
  }

  /** `EklundhTranspose128x1024`: block by block through a copy. */
  method EklundhTranspose128x1024(inout: array2<Block>)
    requires inout.Length0 == 128 && inout.Length1 == 8
    modifies inout
    ensures forall b | 0 <= b < 8 :: Slice(inout, b) == Transposed(old(Slice(inout, b)))
  {
    hide Transposed;
    for i := 0 to 8
      invariant forall b | 0 <= b < 8 ::
          Slice(inout, b) == if b < i then Transposed(old(Slice(inout, b))) else old(Slice(inout, b))
    {
      var sub := new Block[128](j reads inout requires 0 <= j < 128 => inout[j, i]);
      assert sub[..] == Slice(inout, i);
      EklundhTranspose128(sub);
      forall j | 0 <= j < 128 {
        inout[j, i] := sub[j];
      }
      assert Slice(inout, i) == sub[..];
    }
  }

  /** `MatrixTranspose128`: either algorithm, one result. */
  method MatrixTranspose128(inout: array<Block>, cpuSupportsSse2: bool)
    requires inout.Length == 128
    modifies inout
    ensures inout[..] == Transposed(old(inout[..]))
  {
    if cpuSupportsSse2 {
      SseTranspose128(inout);
    } else {
      EklundhTranspose128(inout);
    }
  }

  /** `MatrixTranspose128x1024`. */
  method MatrixTranspose128x1024(inout: array2<Block>, cpuSupportsSse2: bool)
    requires inout.Length0 == 128 && inout.Length1 == 8
    modifies inout
    ensures forall b | 0 <= b < 8 :: Slice(inout, b) == Transposed(old(Slice(inout, b)))
  {
    if cpuSupportsSse2 {
      SseTranspose128x1024(inout);
    } else {
      EklundhTranspose128x1024(inout);
    }
  }
}
