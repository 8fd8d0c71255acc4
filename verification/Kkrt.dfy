/** KKRT oblivious PRF, one-shot form (yasl/mpctools/ot/kkrt_ot_extension.cc). */
module Kkrt {
  import opened Words
  import opened Wrappers
  import opened Transpose
  import opened SseTranspose
  import opened OtRows

  /** The random oracle: the bytes it gives for a row and a buffer size. */
  type Oracle = (Row, nat) -> seq<nat>

  /** H(q ^ (c(x) & s)), the sender's PRF on its row q. */
  function PrfAt(hash: Oracle, prc: Block -> Row, s: Row, q: Row, x: Block, size: nat): seq<nat> {
    hash(RowXor(RowAnd(prc(x), s), q), size)
  }

  class KkrtGroupPRF {
    const prc: Block -> Row
    const hash: Oracle
    const s: Row
    var q: seq<Row>

    constructor (n: nat, s: Row, prc: Block -> Row, hash: Oracle)
      ensures this.s == s && this.prc == prc && this.hash == hash
      ensures |q| == n
    {
      this.s, this.prc, this.hash := s, prc, hash;
      q := seq(n, _ => seq(4, _ => Zero()));
    }

    method Eval(groupIdx: nat, input: Block, size: nat) returns (r: Result<seq<nat>>)
      ensures r == if groupIdx < |q| then Ok(PrfAt(hash, prc, s, q[groupIdx], input, size)) else Err
    {
      if groupIdx >= |q| {
        return Err;
      }
      var row := prc(input);
      for w := 0 to 4
        invariant forall v | 0 <= v < 4 ::
            row[v] == if v < w then RowXor(RowAnd(prc(input), s), q[groupIdx])[v] else prc(input)[v]
      {
        row := row[w := And(row[w], s[w])];
        XorComm(row[w], q[groupIdx][w]);
        row := row[w := Xor(row[w], q[groupIdx][w])];
      }
      assert row == RowXor(RowAnd(prc(input), s), q[groupIdx]);
      return Ok(hash(row, size));
    }

    method SetQ(rows: seq<Row>, offset: nat, numValid: nat) returns (ok: bool)
      modifies this`q
      ensures ok <==> numValid <= |rows| && offset + numValid <= |old(q)|
      ensures |q| == |old(q)|
      ensures forall r | 0 <= r < |q| ::
                q[r] == if ok && offset <= r < offset + numValid then rows[r - offset] else old(q)[r]
    {
      if !(numValid <= |rows| && offset + numValid <= |q|) {
        return false;
      }
      for i := 0 to numValid
        invariant |q| == |old(q)|
        invariant forall r | 0 <= r < |q| :: q[r] == if offset <= r < offset + i then rows[r - offset] else old(q)[r]
      {
        q := q[offset + i := rows[i]];
      }
      return true;
    }

    /** Masks corrections into rows already set. */
    method CalcQ(u: seq<Row>, offset: nat, numValid: nat) returns (ok: bool)
      modifies this`q
      ensures ok <==> numValid <= |u| && offset + numValid <= |old(q)|
      ensures |q| == |old(q)|
      ensures forall r | 0 <= r < |q| ::
                q[r] == if ok && offset <= r < offset + numValid then RowXor(old(q)[r], RowAnd(u[r - offset], s)) else old(q)[r]
    {
      hide RowXor, RowAnd;
      if !(numValid <= |u| && offset + numValid <= |q|) {
        return false;
      }
      for i := 0 to numValid
        invariant |q| == |old(q)|
        invariant forall r | 0 <= r < |q| ::
            q[r] == if offset <= r < offset + i then RowXor(old(q)[r], RowAnd(u[r - offset], s)) else old(q)[r]
      {
        q := q[offset + i := RowXor(q[offset + i], RowAnd(u[i], s))];
      }
      return true;
    }
  }

  method BuildChoices(choices: seq<bool>) returns (s: Row)
    requires |choices| == 512
    ensures s == ChoiceRow(choices)
  {
    s := seq(4, _ => Zero());
    for w := 0 to 4
      invariant forall v | 0 <= v < 4 :: s[v] == if v < w then ChoiceWord(choices, v) else Zero()
    {
      var word: Block := Zero();
      for k := 0 to 128
        invariant forall i | 0 <= i < 128 :: word[i] == (i < k && choices[128 * w + i])
      {
        word := word[k := word[k] || choices[128 * w + k]];
      }
      assert word == ChoiceWord(choices, w);
      s := s[w := word];
    }
  }

  /** One batch of 128 rows: per word, one block of every column, transposed. Only the first `num`
      rows are copied, the others keep what their memory held. */
  method BatchRows(g: Stream, seeds: seq<Block>, pos: array<nat>, i: nat, num: nat,
                   sse: bool) returns (rows: array<Row>)
    requires |seeds| == pos.Length == 512 && num <= 128
    requires forall c | 0 <= c < 512 :: pos[c] == i
    modifies pos
    ensures forall c | 0 <= c < 512 :: pos[c] == i + 1
    ensures fresh(rows) && rows.Length == 128
    ensures forall k | 0 <= k < num :: rows[k] == StreamRow(g, seeds, 128 * i + k)
  {
    hide RowWord;
    rows := new Row[128];
    for w := 0 to 4
      invariant forall c | 0 <= c < 512 :: pos[c] == if c < 128 * w then i + 1 else i
      invariant forall k, v | 0 <= k < num && 0 <= v < w :: rows[k][v] == RowWord(g, seeds, v, 128 * i + k)
    {
      var q := NextColumns(g, seeds, pos, w, i);
      MatrixTranspose128(q, sse);
      CopyWord(g, seeds, q, rows, w, i, num);
    }
    forall k | 0 <= k < num
      ensures rows[k] == StreamRow(g, seeds, 128 * i + k)
    {
      assert forall v | 0 <= v < 4 :: rows[k][v] == RowWord(g, seeds, v, 128 * i + k);
    }
  }

  method CopyWord(g: Stream, ghost seeds: seq<Block>, q: array<Block>, rows: array<Row>, w: nat, ghost i: nat, num: nat)
    requires |seeds| == 512 && q.Length == rows.Length == 128 && w < 4 && num <= 128
    requires q[..] == Transposed(Columns(g, seeds, w, i))
    modifies rows
    ensures forall k, v | 0 <= k < num && 0 <= v < 4 ::
              rows[k][v] == if v == w then RowWord(g, seeds, w, 128 * i + k) else old(rows[k])[v]
  {
    hide Columns;
    for k := 0 to num
      invariant forall j, v | 0 <= j < num && 0 <= v < 4 ::
          rows[j][v] == if v == w && j < k then RowWord(g, seeds, w, 128 * i + j) else old(rows[j])[v]
    {
      assert q[k] == q[..][k] == RowWord(g, seeds, w, 128 * i + k);
      rows[k] := rows[k][w := q[k]];
    }
  }

  function BatchCount(n: nat, i: nat): nat
    requires 128 * i < n
  {
    if n - 128 * i < 128 then n - 128 * i else 128
  }

  /** Row j of the sender: its own stream, with row j of the messages masked in by its choices. */
  function MaskedRow(g: Stream, seeds: seq<Block>, s: Row, messages: seq<seq<Row>>, j: nat): Row
    requires |seeds| == 512 && j / 128 < |messages| && |messages[j / 128]| == 128
  {
    RowXor(StreamRow(g, seeds, j), RowAnd(messages[j / 128][j % 128], s))
  }

  /** `KkrtOtExtSend`: a PRF on the masked rows. */
  method KkrtOtExtSend(g: Stream, prc: Block -> Row, hash: Oracle, seeds: seq<Block>, choices: seq<bool>,
                       numOt: nat, messages: seq<seq<Row>>, sse: bool)
    returns (r: Result<KkrtGroupPRF>)
    requires |messages| >= NumBatch(numOt)
    ensures r.Ok? <==> |seeds| == |choices| == 512 && numOt > 0 && forall i | 0 <= i < NumBatch(numOt) :: |messages[i]| == 128
    ensures r.Ok? ==>
              && fresh(r.value) && r.value.prc == prc && r.value.hash == hash
              && r.value.s == ChoiceRow(choices) && |r.value.q| == numOt
              && forall j | 0 <= j < numOt :: r.value.q[j] == MaskedRow(g, seeds, ChoiceRow(choices), messages, j)
  {
    hide MaskedRow, ChoiceRow;
    if !(|seeds| == |choices| == 512 && numOt > 0) {
      return Err;
    }
    var s := BuildChoices(choices);
    var pos := new nat[512](_ => 0);
    var prf := new KkrtGroupPRF(numOt, s, prc, hash);
    for i := 0 to NumBatch(numOt)
      invariant forall c | 0 <= c < 512 :: pos[c] == i
      invariant forall b | 0 <= b < i :: |messages[b]| == 128
      invariant |prf.q| == numOt
      invariant forall j | 0 <= j < numOt && j < 128 * i :: prf.q[j] == MaskedRow(g, seeds, s, messages, j)
    {
      if |messages[i]| != 128 {
        return Err;
      }
      SendBatch(g, seeds, s, pos, prf, i, messages, sse);
    }
    return Ok(prf);
  }

  method SendBatch(g: Stream, seeds: seq<Block>, s: Row, pos: array<nat>, prf: KkrtGroupPRF, i: nat,
                   messages: seq<seq<Row>>, sse: bool)
    requires |seeds| == pos.Length == 512 && forall c | 0 <= c < 512 :: pos[c] == i
    requires 128 * i < |prf.q| && i < |messages| && |messages[i]| == 128
    modifies pos, prf`q
    ensures forall c | 0 <= c < 512 :: pos[c] == i + 1
    ensures |prf.q| == |old(prf.q)|
    ensures forall j | 0 <= j < |prf.q| ::
              prf.q[j] == if j / 128 == i then MaskedRow(g, seeds, s, messages, j) else old(prf.q)[j]
  {
    hide RowXor, RowAnd, StreamRow;
    var num := BatchCount(|prf.q|, i);
    var rows := BatchRows(g, seeds, pos, i, num, sse);
    MaskRows(rows, messages[i], s, num);
    var ok := prf.SetQ(rows[..], 128 * i, num);
    assert forall j | 0 <= j < |prf.q| && j / 128 == i :: j == 128 * i + j % 128 && j % 128 < num;
  }

  /** Q = (U & S) ^ G(ks). */
  method MaskRows(rows: array<Row>, u: seq<Row>, s: Row, num: nat)
    requires rows.Length == |u| == 128 && num <= 128
    modifies rows
    ensures forall k | 0 <= k < num :: rows[k] == RowXor(old(rows[k]), RowAnd(u[k], s))
  {
    hide RowXor, RowAnd;
    for k := 0 to num
      invariant forall j | 0 <= j < num :: rows[j] == if j < k then RowXor(old(rows[j]), RowAnd(u[j], s)) else old(rows[j])
    {
      rows[k] := RowXor(rows[k], RowAnd(u[k], s));
    }
  }

  /** `KkrtOtExtRecv`: outputs the oracle on the first stream's rows and sends the corrections. */
  method KkrtOtExtRecv(g: Stream, prc: Block -> Row, hash: Oracle, seeds0: seq<Block>, seeds1: seq<Block>,
                       inputs: seq<Block>, recvBlocks: array<seq<nat>>, sse: bool)
    returns (r: Result<seq<seq<Row>>>)
    requires |seeds0| == |seeds1|
    modifies recvBlocks
    ensures r.Ok? <==> |seeds0| == 512 && |inputs| == recvBlocks.Length && inputs != []
    ensures r.Ok? ==>
              && |r.value| == NumBatch(|inputs|)
              && (forall i | 0 <= i < |r.value| :: |r.value[i]| == 128)
              && (forall j | 0 <= j < |inputs| ::
                    r.value[j / 128][j % 128] == CorrectionRow(g, seeds0, seeds1, j, prc(inputs[j])))
              && forall j | 0 <= j < |inputs| :: recvBlocks[j] == hash(StreamRow(g, seeds0, j), 16)
  {
    hide CorrectionRow, StreamRow;
    if !(|seeds0| == 512 && |inputs| == recvBlocks.Length && inputs != []) {
      return Err;
    }
    var pos0, pos1 := new nat[512](_ => 0), new nat[512](_ => 0);
    var sent: seq<seq<Row>> := [];
    for i := 0 to NumBatch(|inputs|)
      invariant pos0 != pos1 && forall c | 0 <= c < 512 :: pos0[c] == i && pos1[c] == i
      invariant |sent| == i && forall b | 0 <= b < i :: |sent[b]| == 128
      invariant forall j | 0 <= j < |inputs| && j < 128 * i ::
          sent[j / 128][j % 128] == CorrectionRow(g, seeds0, seeds1, j, prc(inputs[j]))
      invariant forall j | 0 <= j < |inputs| && j < 128 * i :: recvBlocks[j] == hash(StreamRow(g, seeds0, j), 16)
    {
      var batch := RecvBatch(g, prc, hash, seeds0, seeds1, pos0, pos1, i, inputs, recvBlocks, sse);
      sent := sent + [batch];
    }
    return Ok(sent);
  }

  method RecvBatch(g: Stream, prc: Block -> Row, hash: Oracle, seeds0: seq<Block>, seeds1: seq<Block>,
                   pos0: array<nat>, pos1: array<nat>, i: nat, inputs: seq<Block>, recvBlocks: array<seq<nat>>, sse: bool)
    returns (batch: seq<Row>)
    requires |seeds0| == |seeds1| == pos0.Length == pos1.Length == 512 && pos0 != pos1
    requires |inputs| == recvBlocks.Length && 128 * i < |inputs|
    requires forall c | 0 <= c < 512 :: pos0[c] == i && pos1[c] == i
    modifies pos0, pos1, recvBlocks
    ensures forall c | 0 <= c < 512 :: pos0[c] == i + 1 && pos1[c] == i + 1
    ensures |batch| == 128
    ensures forall j | 0 <= j < |inputs| && j / 128 == i ::
              batch[j % 128] == CorrectionRow(g, seeds0, seeds1, j, prc(inputs[j]))
    ensures forall j | 0 <= j < |inputs| ::
              recvBlocks[j] == if j / 128 == i then hash(StreamRow(g, seeds0, j), 16) else old(recvBlocks[j])
  {
    hide RowXor, StreamRow, CorrectionRow;
    var num := BatchCount(|inputs|, i);
    var t := BatchRows(g, seeds0, pos0, i, num, sse);
    var u := BatchRows(g, seeds1, pos1, i, num, sse);
    ghost var u1 := u[..];
    CombineRows(prc, t, u, inputs, i, num);
    batch := u[..];
    forall j | 0 <= j < |inputs| && j / 128 == i
      ensures j % 128 < num && t[j % 128] == StreamRow(g, seeds0, j)
      ensures batch[j % 128] == CorrectionRow(g, seeds0, seeds1, j, prc(inputs[j]))
    {
      PlaceInBatch(|inputs|, i, j);
      assert u1[j % 128] == StreamRow(g, seeds1, j);
      CombinedRow(g, seeds0, seeds1, j, prc(inputs[j]));
    }
    OutputRows(hash, t, i, num, recvBlocks);
  }

  lemma PlaceInBatch(n: nat, i: nat, j: nat)
    requires j < n && j / 128 == i
    ensures 128 * i < n && j == 128 * i + j % 128 && j % 128 < BatchCount(n, i)
  {
  }

  lemma CombinedRow(g: Stream, seeds0: seq<Block>, seeds1: seq<Block>, r: nat, code: Row)
    requires |seeds0| == |seeds1| == 512
    ensures CorrectionRow(g, seeds0, seeds1, r, code) ==
            RowXor(RowXor(StreamRow(g, seeds1, r), StreamRow(g, seeds0, r)), code)
  {
    hide RowXor, StreamRow;
  }

  /** U = G(k1) ^ G(k0) ^ PRC(r). */
  method CombineRows(prc: Block -> Row, t: array<Row>, u: array<Row>, inputs: seq<Block>, i: nat, num: nat)
    requires t != u && t.Length == u.Length == 128 && num <= 128 && 128 * i + num <= |inputs|
    modifies u
    ensures forall k | 0 <= k < num :: u[k] == RowXor(RowXor(old(u[k]), t[k]), prc(inputs[128 * i + k]))
  {
    hide RowXor;
    for k := 0 to num
      invariant forall j | 0 <= j < num ::
          u[j] == if j < k then RowXor(RowXor(old(u[j]), t[j]), prc(inputs[128 * i + j])) else old(u[j])
    {
      u[k] := RowXor(RowXor(u[k], t[k]), prc(inputs[128 * i + k]));
    }
  }

  method OutputRows(hash: Oracle, t: array<Row>, i: nat, num: nat, recvBlocks: array<seq<nat>>)
    requires t.Length == 128 && num <= 128 && 128 * i + num <= recvBlocks.Length && t as object != recvBlocks
    modifies recvBlocks
    ensures forall j | 0 <= j < recvBlocks.Length ::
              recvBlocks[j] == if j / 128 == i && j % 128 < num then hash(t[j % 128], 16) else old(recvBlocks[j])
  {
    for k := 0 to num
      invariant forall j | 0 <= j < recvBlocks.Length ::
          recvBlocks[j] == if j / 128 == i && j % 128 < k then hash(t[j % 128], 16) else old(recvBlocks[j])
    {
      recvBlocks[128 * i + k] := hash(t[k], 16);
    }
  }

  /** On a corrected row the sender's PRF at the code's input is the oracle on the receiver's row. */
  lemma PrfAgrees(g: Stream, prc: Block -> Row, hash: Oracle, seeds: seq<Block>, choices: seq<bool>,
                  seeds0: seq<Block>, seeds1: seq<Block>, r: nat, x: Block, size: nat)
    requires |seeds| == 512 && BaseOt(seeds, choices, seeds0, seeds1)
    ensures var q := RowXor(StreamRow(g, seeds, r),
                            RowAnd(CorrectionRow(g, seeds0, seeds1, r, prc(x)), ChoiceRow(choices)));
            PrfAt(hash, prc, ChoiceRow(choices), q, x, size) == hash(StreamRow(g, seeds0, r), size)
  {
    hide RowXor, RowAnd, StreamRow, ChoiceRow, CorrectionRow;
    RowCorrelation(g, seeds, choices, seeds0, seeds1, r, prc(x));
    RowUnmask(StreamRow(g, seeds0, r), RowAnd(prc(x), ChoiceRow(choices)));
  }

  /** A whole run, for every number of OTs: the PRF at the receiver's input is what it received. */
  method KkrtOtExt(g: Stream, prc: Block -> Row, hash: Oracle, seeds: seq<Block>, choices: seq<bool>,
                   seeds0: seq<Block>, seeds1: seq<Block>, inputs: seq<Block>, recvBlocks: array<seq<nat>>, sse: bool)
    returns (prf: KkrtGroupPRF)
    requires |seeds| == 512 && BaseOt(seeds, choices, seeds0, seeds1)
    requires |inputs| == recvBlocks.Length > 0
    modifies recvBlocks
    ensures fresh(prf) && |prf.q| == |inputs|
    ensures forall j | 0 <= j < |inputs| :: PrfAt(prf.hash, prf.prc, prf.s, prf.q[j], inputs[j], 16) == recvBlocks[j]
  {
    hide RowXor, RowAnd, StreamRow, ChoiceRow, CorrectionRow, PrfAt;
    var sent := KkrtOtExtRecv(g, prc, hash, seeds0, seeds1, inputs, recvBlocks, sse);
    var r := KkrtOtExtSend(g, prc, hash, seeds, choices, |inputs|, sent.value, sse);
    prf := r.value;
    forall j | 0 <= j < |inputs|
      ensures PrfAt(prf.hash, prf.prc, prf.s, prf.q[j], inputs[j], 16) == recvBlocks[j]
    {
      PrfAgrees(g, prc, hash, seeds, choices, seeds0, seeds1, j, inputs[j], 16);
    }
  }
}
