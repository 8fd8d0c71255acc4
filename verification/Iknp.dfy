/** IKNP OT extension (yasl/mpctools/ot/iknp_ot_extension.cc). */
module Iknp {
  import opened Words
  import opened Wrappers
  import opened Transpose
  import opened OtRows

  /** What the receiver sends for batch i: per column both streams and the batch's choice bits. */
  function Message(g: Stream, seeds0: seq<Block>, seeds1: seq<Block>, choices: Block, i: nat): Matrix
    requires |seeds0| == |seeds1| == 128
  {
    seq(128, k requires 0 <= k < 128 => MessageColumn(g, seeds0[k], seeds1[k], choices, i))
  }

  function MessageColumn(g: Stream, seed0: Block, seed1: Block, choices: Block, i: nat): Block {
    Xor(Xor(g(seed0, i), g(seed1, i)), choices)
  }

  /** `IknpOtExtRecv`. Every block received is the hash of a row of the first streams. */
  method IknpOtExtRecv(g: Stream, hash: Block -> Block, worldSize: nat, seeds0: seq<Block>, seeds1: seq<Block>,
                       choices: seq<Block>, recvBlocks: array<Block>)
    returns (r: Result<seq<Matrix>>)
    requires |seeds0| == |seeds1|
    modifies recvBlocks
    ensures r.Ok? <==> worldSize == 2 && |seeds0| == 128 && recvBlocks.Length > 0
                       && |choices| == NumBatch(recvBlocks.Length)
    ensures r.Ok? ==>
              && |r.value| == NumBatch(recvBlocks.Length)
              && (forall i | 0 <= i < |r.value| :: r.value[i] == Message(g, seeds0, seeds1, choices[i], i))
              && forall j | 0 <= j < recvBlocks.Length :: recvBlocks[j] == hash(RowWord(g, seeds0, 0, j))
  {
    var numBatch := NumBatch(recvBlocks.Length);
    if !(worldSize == 2 && |seeds0| == 128 && recvBlocks.Length > 0 && |choices| == numBatch) {
      return Err;
    }
    var pos0, pos1 := new nat[128](_ => 0), new nat[128](_ => 0);
    var sent: seq<Matrix> := [];
    for i := 0 to numBatch
      invariant pos0 != pos1 && pos0.Length == pos1.Length == 128
      invariant forall c | 0 <= c < 128 :: pos0[c] == i && pos1[c] == i
      invariant |sent| == i && forall b | 0 <= b < i :: sent[b] == Message(g, seeds0, seeds1, choices[b], b)
      invariant forall j | 0 <= j < recvBlocks.Length && j < 128 * i :: recvBlocks[j] == hash(RowWord(g, seeds0, 0, j))
    {
      hide Message, RowWord;
      var batch, t := RecvBatch(g, seeds0, seeds1, pos0, pos1, choices[i], i);
      sent := sent + [batch];
      NaiveTranspose(t);
      HashRows(g, hash, seeds0, t, i, recvBlocks);
    }
    return Ok(sent);
  }

  /** Both streams of every column for batch i, and the message built from them. */
  method RecvBatch(g: Stream, seeds0: seq<Block>, seeds1: seq<Block>, pos0: array<nat>, pos1: array<nat>,
                   choices: Block, i: nat)
    returns (batch: Matrix, t: array<Block>)
    requires |seeds0| == |seeds1| == pos0.Length == pos1.Length == 128 && pos0 != pos1
    requires forall c | 0 <= c < 128 :: pos0[c] == i && pos1[c] == i
    modifies pos0, pos1
    ensures forall c | 0 <= c < 128 :: pos0[c] == i + 1 && pos1[c] == i + 1
    ensures batch == Message(g, seeds0, seeds1, choices, i)
    ensures fresh(t) && t.Length == 128 && t[..] == Columns(g, seeds0, 0, i)
  {
    hide Xor;
    t := NextColumns(g, seeds0, pos0, 0, i);
    var u := NextColumns(g, seeds1, pos1, 0, i);
    batch := seq(128, k requires 0 <= k < 128 reads t, u => Xor(Xor(t[k], u[k]), choices));
    assert batch == Message(g, seeds0, seeds1, choices, i);
  }

  /** Outputs the hashed rows of one batch; the last batch may be partial. */
  method HashRows(g: Stream,
                  hash: Block -> Block, ghost seeds0: seq<Block>, t: array<Block>, i: nat, recvBlocks: array<Block>)
    requires |seeds0| == 128 && t.Length == 128 && t[..] == Transposed(Columns(g, seeds0, 0, i))
    requires t != recvBlocks && 128 * i < recvBlocks.Length
    modifies recvBlocks
    ensures forall j | 0 <= j < recvBlocks.Length ::
              recvBlocks[j] == if j / 128 == i then hash(RowWord(g, seeds0, 0, j)) else old(recvBlocks[j])
  {
    hide Columns;
    var limit := if recvBlocks.Length - i * 128 < 128 then recvBlocks.Length - i * 128 else 128;
    for offset := 0 to limit
      invariant t[..] == Transposed(Columns(g, seeds0, 0, i))
      invariant forall j | 0 <= j < recvBlocks.Length ::
          recvBlocks[j] == if j / 128 == i && j % 128 < offset then hash(RowWord(g, seeds0, 0, j)) else old(recvBlocks[j])
    {
      assert t[offset] == t[..][offset] == RowWord(g, seeds0, 0, i * 128 + offset);
      recvBlocks[i * 128 + offset] := hash(t[offset]);
    }
  }

  /** The sender's row: its own stream, with the message masked in by its choices. */
  function SenderColumns(g: Stream, seeds: seq<Block>, choices: seq<bool>, message: Matrix, i: nat): Matrix
    requires |seeds| == |choices| == 128
  {
    seq(128, k requires 0 <= k < 128 => SenderColumn(g, seeds[k], choices[k], message[k], i))
  }

  function SenderColumn(g: Stream, seed: Block, choice: bool, column: Block, i: nat): Block {
    Xor(if choice then column else Zero(), g(seed, i))
  }

  function SenderRow(g: Stream, seeds: seq<Block>, choices: seq<bool>, messages: seq<seq<Block>>, j: nat): Block
    requires |seeds| == |choices| == 128 && j / 128 < |messages| && |messages[j / 128]| == 128
  {
    Column(SenderColumns(g, seeds, choices, messages[j / 128], j / 128), j % 128)
  }

  /** `IknpOtExtSend`. Either block of a pair is the hash of a sender row, without and with the choices. */
  method IknpOtExtSend(g: Stream, hash: Block -> Block, worldSize: nat, seeds: seq<Block>, choices: seq<bool>,
                       messages: seq<seq<Block>>, sendBlocks: array<(Block, Block)>)
    returns (ok: bool)
    requires |messages| >= NumBatch(sendBlocks.Length)
    modifies sendBlocks
    ensures ok <==> worldSize == 2 && |choices| == |seeds| == 128 && sendBlocks.Length > 0
                    && forall i | 0 <= i < NumBatch(sendBlocks.Length) :: |messages[i]| == 128
    ensures ok ==> forall j | 0 <= j < sendBlocks.Length ::
                sendBlocks[j] == SendPair(hash, SenderRow(g, seeds, choices, messages, j), ChoiceWord(choices, 0))
  {
    if !(worldSize == 2 && |choices| == |seeds| == 128 && sendBlocks.Length > 0) {
      return false;
    }
    var choiceMask := BuildMask(choices);
    var pos := new nat[128](_ => 0);
    var numBatch := NumBatch(sendBlocks.Length);
    for i := 0 to numBatch
      invariant forall c | 0 <= c < 128 :: pos[c] == i
      invariant forall b | 0 <= b < i :: |messages[b]| == 128
      invariant forall j | 0 <= j < sendBlocks.Length && j < 128 * i ::
          sendBlocks[j] == SendPair(hash, SenderRow(g, seeds, choices, messages, j), choiceMask)
    {
      if |messages[i]| != 128 {
        return false;
      }
      var batch := MaskBatch(g, seeds, choices, messages[i], pos, i);
      NaiveTranspose(batch);
      HashPairs(g, hash, seeds, choices, messages, batch, choiceMask, i, sendBlocks);
    }
    return true;
  }

  function SendPair(hash: Block -> Block, q: Block, choiceMask: Block): (Block, Block) {
    (hash(q), hash(Xor(q, choiceMask)))
  }

  method BuildMask(choices: seq<bool>) returns (mask: Block)
    requires |choices| == 128
    ensures mask == ChoiceWord(choices, 0)
  {
    mask := Zero();
    for i := 0 to 128
      invariant forall k | 0 <= k < 128 :: mask[k] == (k < i && choices[k])
    {
      mask := mask[i := mask[i] || choices[i]];
    }
  }

  /** Q = (u & s) ^ G(K_s), column by column. */
  method MaskBatch(g: Stream, seeds: seq<Block>, choices: seq<bool>, message: Matrix, pos: array<nat>, i: nat)
    returns (batch: array<Block>)
    requires |seeds| == |choices| == pos.Length == 128 && forall c | 0 <= c < 128 :: pos[c] == i
    modifies pos
    ensures fresh(batch) && batch.Length == 128 && batch[..] == SenderColumns(g, seeds, choices, message, i)
    ensures forall c | 0 <= c < 128 :: pos[c] == i + 1
  {
    hide Xor, And, Zero;
    batch := new Block[128](k requires 0 <= k < 128 => message[k]);
    for k := 0 to 128
      invariant forall c | 0 <= c < 128 :: pos[c] == if c < k then i + 1 else i
      invariant forall c | 0 <= c < 128 ::
          batch[c] == if c < k then SenderColumns(g, seeds, choices, message, i)[c] else message[c]
    {
      var s := if choices[k] then AllOnes() else Zero();
      var genKs := g(seeds[k], pos[k]);
      pos[k] := pos[k] + 1;
      AndMask(batch[k]);
      batch[k] := And(batch[k], s);
      batch[k] := Xor(batch[k], genKs);
    }
  }

  function AllOnes(): Block {
    seq(128, _ => true)
  }

  lemma AndMask(b: Block)
    ensures And(b, AllOnes()) == b && And(b, Zero()) == Zero()
  {
  }

  method HashPairs(g: Stream, hash: Block -> Block, ghost seeds: seq<Block>, ghost choices: seq<bool>,
                   ghost messages: seq<seq<Block>>, batch: array<Block>, choiceMask: Block, i: nat,
                   sendBlocks: array<(Block, Block)>)
    requires |seeds| == |choices| == batch.Length == 128 && |messages| >= NumBatch(sendBlocks.Length)
    requires 128 * i < sendBlocks.Length && |messages[i]| == 128
    requires batch[..] == Transposed(SenderColumns(g, seeds, choices, messages[i], i))
    modifies sendBlocks
    ensures forall j | 0 <= j < sendBlocks.Length ::
              sendBlocks[j] == if j / 128 == i then SendPair(hash, SenderRow(g, seeds, choices, messages, j), choiceMask)
              else old(sendBlocks[j])
  {
    hide SenderColumns, Xor;
    var limit := if sendBlocks.Length - i * 128 < 128 then sendBlocks.Length - i * 128 else 128;
    for offset := 0 to limit
      invariant forall j | 0 <= j < sendBlocks.Length ::
          sendBlocks[j] == if j / 128 == i && j % 128 < offset
          then SendPair(hash, SenderRow(g, seeds, choices, messages, j), choiceMask)
          else old(sendBlocks[j])
    {
      assert batch[offset] == batch[..][offset] == SenderRow(g, seeds, choices, messages, i * 128 + offset);
      sendBlocks[i * 128 + offset] := (hash(batch[offset]), hash(Xor(batch[offset], choiceMask)));
    }
  }

  /** IKNP: with consistent base OTs, the sender's block at the receiver's choice is the receiver's block. */
  lemma IknpCorrect(g: Stream, hash: Block -> Block, seeds: seq<Block>, senderChoices: seq<bool>,
                    seeds0: seq<Block>, seeds1: seq<Block>, choices: seq<Block>, messages: seq<Matrix>, j: nat)
    requires |seeds| == 128 && BaseOt(seeds, senderChoices, seeds0, seeds1)
    requires j / 128 < |messages| == |choices|
    requires forall i | 0 <= i < |messages| :: messages[i] == Message(g, seeds0, seeds1, choices[i], i)
    ensures var pair := SendPair(hash, SenderRow(g, seeds, senderChoices, messages, j), ChoiceWord(senderChoices, 0));
            var received := hash(RowWord(g, seeds0, 0, j));
            received == if choices[j / 128][j % 128] then pair.1 else pair.0
  {
    var q, t, s := SenderRow(g, seeds, senderChoices, messages, j), RowWord(g, seeds0, 0, j), ChoiceWord(senderChoices, 0);
    var choice := choices[j / 128][j % 128];
    forall k | 0 <= k < 128
      ensures q[k] == (t[k] != (choice && s[k]))
    {
      var i := j / 128;
      assert messages[i] == Message(g, seeds0, seeds1, choices[i], i);
      assert messages[i][k] == MessageColumn(g, seeds0[k], seeds1[k], choices[i], i);
      assert q[k] == SenderColumn(g, seeds[k], senderChoices[k], messages[i][k], i)[j % 128];
      assert seeds[k] == if senderChoices[k] then seeds1[k] else seeds0[k];
    }
    UnmaskChoice(q, t, s, choice);
  }

  lemma UnmaskChoice(q: Block, t: Block, s: Block, choice: bool)
    requires forall k | 0 <= k < 128 :: q[k] == (t[k] != (choice && s[k]))
    ensures t == if choice then Xor(q, s) else q
  {
  }

  /** A whole run, for every number of OTs, the last batch full or not. */
  method IknpOtExt(g: Stream, hash: Block -> Block, seeds: seq<Block>, senderChoices: seq<bool>,
                   seeds0: seq<Block>, seeds1: seq<Block>, choices: seq<Block>,
                   sendBlocks: array<(Block, Block)>, recvBlocks: array<Block>)
    requires |seeds| == 128 && BaseOt(seeds, senderChoices, seeds0, seeds1)
    requires sendBlocks.Length == recvBlocks.Length > 0 && |choices| == NumBatch(recvBlocks.Length)
    modifies sendBlocks, recvBlocks
    ensures forall j | 0 <= j < recvBlocks.Length ::
              recvBlocks[j] == if choices[j / 128][j % 128] then sendBlocks[j].1 else sendBlocks[j].0
  {
    var r := IknpOtExtRecv(g, hash, 2, seeds0, seeds1, choices, recvBlocks);
    var ok := IknpOtExtSend(g, hash, 2, seeds, senderChoices, r.value, sendBlocks);
    forall j | 0 <= j < recvBlocks.Length
      ensures recvBlocks[j] == if choices[j / 128][j % 128] then sendBlocks[j].1 else sendBlocks[j].0
    {
      IknpCorrect(g, hash, seeds, senderChoices, seeds0, seeds1, choices, r.value, j);
    }
  }
}
