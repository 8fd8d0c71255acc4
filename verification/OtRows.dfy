/** What the OT extensions share: the rows that column-wise generator streams transpose into, and
    the correlation that the base OTs put on them. */
module OtRows {
  import opened Words
  import opened Transpose

  /** The OTs are extended in batches of 128. */
  function NumBatch(n: nat): nat { (n + 127) / 128 }

  /** `KkrtRow`: four blocks. */
  type Row = r: seq<Block> | |r| == 4 witness seq(4, _ => Zero())

  function RowXor(a: Row, b: Row): Row {
    seq(4, w requires 0 <= w < 4 => Xor(a[w], b[w]))
  }

  function RowAnd(a: Row, b: Row): Row {
    seq(4, w requires 0 <= w < 4 => And(a[w], b[w]))
  }

  /** Block number n of the 128 columns from 128w on, one generator per column. */
  function Columns(g: Stream, seeds: seq<Block>, w: nat, n: nat): Matrix
    requires |seeds| >= 128 * (w + 1)
  {
    seq(128, k requires 0 <= k < 128 => g(seeds[128 * w + k], n))
  }

  /** Word w of row r once the columns are transposed: bit r % 128 of block r / 128 of every column. */
  function RowWord(g: Stream, seeds: seq<Block>, w: nat, r: nat): Block
    requires |seeds| >= 128 * (w + 1)
  {
    Column(Columns(g, seeds, w, r / 128), r % 128)
  }

  lemma TransposedRow(g: Stream, seeds: seq<Block>, w: nat, n: nat, j: nat)
    requires |seeds| >= 128 * (w + 1) && j < 128
    ensures Transposed(Columns(g, seeds, w, n))[j] == RowWord(g, seeds, w, 128 * n + j)
  {
  }

  function StreamRow(g: Stream, seeds: seq<Block>, r: nat): Row
    requires |seeds| == 512
  {
    seq(4, w requires 0 <= w < 4 => RowWord(g, seeds, w, r))
  }

  /** Base OT: seed c is the chosen one of the pair. */
  predicate BaseOt(seeds: seq<Block>, choices: seq<bool>, seeds0: seq<Block>, seeds1: seq<Block>) {
    && |seeds| == |choices| == |seeds0| == |seeds1|
    && forall c | 0 <= c < |seeds| :: seeds[c] == if choices[c] then seeds1[c] else seeds0[c]
  }

  /** The choice bits 128w .. 128w + 127 as a word. */
  function ChoiceWord(choices: seq<bool>, w: nat): Block
    requires |choices| >= 128 * (w + 1)
  {
    choices[128 * w..128 * w + 128]
  }

  function ChoiceRow(choices: seq<bool>): Row
    requires |choices| == 512
  {
    seq(4, w requires 0 <= w < 4 => ChoiceWord(choices, w))
  }

  /** The receiver's correction word: both its streams and its code. */
  function CorrectionWord(g: Stream, seeds0: seq<Block>, seeds1: seq<Block>, w: nat, r: nat, code: Block): Block
    requires |seeds0| >= 128 * (w + 1) && |seeds1| >= 128 * (w + 1)
  {
    Xor(Xor(RowWord(g, seeds1, w, r), RowWord(g, seeds0, w, r)), code)
  }

  function CorrectionRow(g: Stream, seeds0: seq<Block>, seeds1: seq<Block>, r: nat, code: Row): Row
    requires |seeds0| == |seeds1| == 512
  {
    RowXor(RowXor(StreamRow(g, seeds1, r), StreamRow(g, seeds0, r)), code)
  }

  /** The OT extension correlation, word by word: the sender's stream with the correction masked in
      by its choices is the receiver's first stream with the code masked in. */
  lemma WordCorrelation(g: Stream, seeds: seq<Block>, choices: seq<bool>, seeds0: seq<Block>, seeds1: seq<Block>,
                        w: nat, r: nat, code: Block)
    requires BaseOt(seeds, choices, seeds0, seeds1) && |seeds| >= 128 * (w + 1)
    ensures Xor(RowWord(g, seeds, w, r), And(CorrectionWord(g, seeds0, seeds1, w, r, code), ChoiceWord(choices, w)))
         == Xor(RowWord(g, seeds0, w, r), And(code, ChoiceWord(choices, w)))
  {
    var s := ChoiceWord(choices, w);
    var q, t, u := RowWord(g, seeds, w, r), RowWord(g, seeds0, w, r), RowWord(g, seeds1, w, r);
    forall k | 0 <= k < 128
      ensures q[k] == if s[k] then u[k] else t[k]
    {
      assert seeds[128 * w + k] == if choices[128 * w + k] then seeds1[128 * w + k] else seeds0[128 * w + k];
    }
    MaskedXor(q, t, u, code, s);
  }

  lemma MaskedXor(q: Block, t: Block, u: Block, code: Block, s: Block)
    requires forall k | 0 <= k < 128 :: q[k] == if s[k] then u[k] else t[k]
    ensures Xor(q, And(Xor(Xor(u, t), code), s)) == Xor(t, And(code, s))
  {
  }

  lemma RowCorrelation(g: Stream, seeds: seq<Block>, choices: seq<bool>, seeds0: seq<Block>, seeds1: seq<Block>,
                       r: nat, code: Row)
    requires BaseOt(seeds, choices, seeds0, seeds1) && |seeds| == 512
    ensures RowXor(StreamRow(g, seeds, r), RowAnd(CorrectionRow(g, seeds0, seeds1, r, code), ChoiceRow(choices)))
         == RowXor(StreamRow(g, seeds0, r), RowAnd(code, ChoiceRow(choices)))
  {
    hide RowWord, Xor, And, ChoiceWord;
    forall w | 0 <= w < 4
      ensures Xor(RowWord(g, seeds, w, r), And(CorrectionWord(g, seeds0, seeds1, w, r, code[w]), ChoiceWord(choices, w)))
           == Xor(RowWord(g, seeds0, w, r), And(code[w], ChoiceWord(choices, w)))
    {
      WordCorrelation(g, seeds, choices, seeds0, seeds1, w, r, code[w]);
    }
  }

  /** Masking the code out again leaves the row. */
  lemma RowUnmask(t: Row, p: Row)
    ensures RowXor(p, RowXor(t, p)) == t
  {
    hide Xor;
    forall w | 0 <= w < 4
      ensures RowXor(p, RowXor(t, p))[w] == t[w]
    {
      XorComm(p[w], Xor(t[w], p[w]));
      XorCancel(t[w], p[w]);
    }
  }

  /** One call of each generator of a column group: the streams advance by one block. */
  method NextColumns(g: Stream, seeds: seq<Block>, pos: array<nat>, w: nat, ghost n: nat) returns (m: array<Block>)
    requires pos.Length == |seeds| && |seeds| >= 128 * (w + 1)
    requires forall c | 128 * w <= c < 128 * w + 128 :: pos[c] == n
    modifies pos
    ensures fresh(m) && m.Length == 128 && m[..] == Columns(g, seeds, w, n)
    ensures forall c | 0 <= c < pos.Length :: pos[c] == if 128 * w <= c < 128 * w + 128 then n + 1 else old(pos[c])
  {
    m := new Block[128](_ => Zero());
    for k := 0 to 128
      invariant forall i | 0 <= i < k :: m[i] == g(seeds[128 * w + i], n)
      invariant forall c | 0 <= c < pos.Length :: pos[c] == if 128 * w <= c < 128 * w + k then n + 1 else old(pos[c])
    {
      m[k] := g(seeds[128 * w + k], pos[128 * w + k]);
      pos[128 * w + k] := pos[128 * w + k] + 1;
    }
  }
}
