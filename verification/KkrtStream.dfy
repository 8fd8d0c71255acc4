/** The streaming form of the KKRT oblivious PRF (yasl/mpctools/ot/kkrt_ot_extension.cc):
    `KkrtOtExtSender` and `KkrtOtExtReceiver`, with corrections exchanged in batches. */
module KkrtStream {
  import opened Words
  import opened Wrappers
  import opened Transpose
  import opened SseTranspose
  import opened OtRows
  import opened Kkrt

  // ---- Initial rows, 1024 at a time ----

  /** Eight blocks of each of 128 columns. */
  method FillColumns(g: Stream, seeds: seq<Block>, pos: array<nat>, w: nat, ghost n: nat) returns (q: array2<Block>)
    requires |seeds| == pos.Length == 512 && w < 4
    requires forall c | 128 * w <= c < 128 * w + 128 :: pos[c] == n
    modifies pos
    ensures forall c | 0 <= c < 512 :: pos[c] == if 128 * w <= c < 128 * w + 128 then n + 8 else old(pos[c])
    ensures fresh(q) && q.Length0 == 128 && q.Length1 == 8
    ensures forall b | 0 <= b < 8 :: Slice(q, b) == Columns(g, seeds, w, n + b)
  {
    q := new Block[128, 8]((_, _) => Zero());
    for k := 0 to 128
      invariant forall c | 0 <= c < 512 :: pos[c] == if 128 * w <= c < 128 * w + k then n + 8 else old(pos[c])
      invariant forall i, b | 0 <= i < k && 0 <= b < 8 :: q[i, b] == g(seeds[128 * w + i], n + b)
    {
      for j := 0 to 8
        invariant forall c | 0 <= c < 512 ::
            pos[c] == if 128 * w <= c < 128 * w + k then n + 8 else if c == 128 * w + k then n + j else old(pos[c])
        invariant forall i, b | 0 <= i < k && 0 <= b < 8 :: q[i, b] == g(seeds[128 * w + i], n + b)
        invariant forall b | 0 <= b < j :: q[k, b] == g(seeds[128 * w + k], n + b)
      {
        q[k, j] := g(seeds[128 * w + k], pos[128 * w + k]);
        pos[128 * w + k] := pos[128 * w + k] + 1;
      }
    }
  }

  /** Word w of the first num rows, block by block; the copy stops after a partial block. */
  method CopyBlocks(g: Stream, ghost seeds: seq<Block>, q: array2<Block>, rows: array<Row>, w: nat, ghost i: nat,
                    num: nat)
    requires |seeds| == 512 && q.Length0 == 128 && q.Length1 == 8 && rows.Length == 1024 && w < 4 && num <= 1024
    requires forall b | 0 <= b < 8 :: Slice(q, b) == Transposed(Columns(g, seeds, w, 8 * i + b))
    modifies rows
    ensures forall k, v | 0 <= k < num && 0 <= v < 4 ::
              rows[k][v] == if v == w then RowWord(g, seeds, w, 1024 * i + k) else old(rows[k])[v]
  {
    hide RowWord;
    var b := 0;
    while b < 8
      invariant b <= 8 && (b < 8 ==> 128 * b <= num)
      invariant forall k, v | 0 <= k < num && 0 <= v < 4 ::
                  rows[k][v] == if v == w && k < 128 * b then RowWord(g, seeds, w, 1024 * i + k) else old(rows[k])[v]
    {
      var qIdx := 128 * b;
      var batchNum := if num - qIdx < 128 then num - qIdx else 128;
      CopyBlock(g, seeds, q, rows, w, i, b, batchNum);
      if batchNum < 128 {
        break;
      }
      b := b + 1;
    }
  }

  method CopyBlock(g: Stream, ghost seeds: seq<Block>, q: array2<Block>, rows: array<Row>, w: nat, ghost i: nat,
                   b: nat, num: nat)
    requires |seeds| == 512 && q.Length0 == 128 && q.Length1 == 8 && rows.Length == 1024 && w < 4 && b < 8 && num <= 128
    requires Slice(q, b) == Transposed(Columns(g, seeds, w, 8 * i + b))
    modifies rows
    ensures forall k, v | 0 <= k < 1024 && 0 <= v < 4 ::
              rows[k][v] == if v == w && 128 * b <= k < 128 * b + num then RowWord(g, seeds, w, 1024 * i + k)
              else old(rows[k])[v]
  {
    hide Columns, RowWord, Transposed;
    for j := 0 to num
      invariant forall k, v | 0 <= k < 1024 && 0 <= v < 4 ::
          rows[k][v] == if v == w && 128 * b <= k < 128 * b + j then RowWord(g, seeds, w, 1024 * i + k)
          else old(rows[k])[v]
    {
      TransposedRow(g, seeds, w, 8 * i + b, j);
      assert q[j, b] == Slice(q, b)[j];
      rows[128 * b + j] := rows[128 * b + j][w := q[j, b]];
    }
  }

  method BatchRows1024(g: Stream, seeds: seq<Block>, pos: array<nat>, i: nat, num: nat) returns (rows: array<Row>)
    requires |seeds| == pos.Length == 512 && num <= 1024
    requires forall c | 0 <= c < 512 :: pos[c] == 8 * i
    modifies pos
    ensures forall c | 0 <= c < 512 :: pos[c] == 8 * (i + 1)
    ensures fresh(rows) && rows.Length == 1024
    ensures forall k | 0 <= k < num :: rows[k] == StreamRow(g, seeds, 1024 * i + k)
  {
    hide RowWord, Columns, Transposed, Slice;
    rows := new Row[1024];
    for w := 0 to 4
      invariant forall c | 0 <= c < 512 :: pos[c] == if c < 128 * w then 8 * i + 8 else 8 * i
      invariant forall k, v | 0 <= k < num && 0 <= v < w :: rows[k][v] == RowWord(g, seeds, v, 1024 * i + k)
    {
      var q := FillColumns(g, seeds, pos, w, 8 * i);
      SseTranspose128x1024(q);
      CopyBlocks(g, seeds, q, rows, w, i, num);
    }
    forall k | 0 <= k < num
      ensures rows[k] == StreamRow(g, seeds, 1024 * i + k)
    {
      assert forall v | 0 <= v < 4 :: rows[k][v] == RowWord(g, seeds, v, 1024 * i + k);
    }
  }

  function NumBatch1024(n: nat): nat { (n + 1023) / 1024 }

  function BatchCount1024(n: nat, i: nat): nat
    requires 1024 * i < n
  {
    if n - 1024 * i < 1024 then n - 1024 * i else 1024
  }

  // ---- The two sides as state ----

  /** The receiver's rows, its correction rows, and how many corrections it has handed over. */
  datatype Receiver = Receiver(t: seq<Row>, u: seq<Row>, correctionIdx: nat)

  function EncodeStep(r: Receiver, idx: nat, code: Row): Receiver
    requires idx < |r.t| == |r.u|
  {
    r.(u := r.u[idx := RowXor(RowXor(r.u[idx], r.t[idx]), code)])
  }

  function ShiftStep(r: Receiver, count: nat): (Receiver, seq<Row>)
    requires r.correctionIdx + count <= |r.u|
  {
    (r.(correctionIdx := r.correctionIdx + count), r.u[r.correctionIdx..r.correctionIdx + count])
  }

  /** The sender's rows and how many of them are corrected. */
  datatype Sender = Sender(q: seq<Row>, correctionIdx: nat)

  function CorrectStep(d: Sender, s: Row, u: seq<Row>): Sender
    requires d.correctionIdx + |u| <= |d.q|
  {
    Sender(seq(|d.q|, r requires 0 <= r < |d.q| =>
             if d.correctionIdx <= r < d.correctionIdx + |u| then RowXor(d.q[r], RowAnd(u[r - d.correctionIdx], s)) else d.q[r]),
           d.correctionIdx + |u|)
  }

  lemma CorrectedRows(d: Sender, s: Row, u: seq<Row>, q: seq<Row>)
    requires d.correctionIdx + |u| <= |d.q| == |q|
    requires forall r | 0 <= r < |q| ::
               q[r] == if d.correctionIdx <= r < d.correctionIdx + |u|
               then RowXor(d.q[r], RowAnd(u[r - d.correctionIdx], s)) else d.q[r]
    ensures Sender(q, d.correctionIdx + |u|) == CorrectStep(d, s, u)
  {
    hide RowXor, RowAnd;
  }

  class KkrtOtExtReceiver {
    const g: Stream
    const prc: Block -> Row
    const hash: Oracle
    var t: seq<Row>
    var u: seq<Row>
    var correctionIdx: nat

    ghost function State(): Receiver
      reads this
    {
      Receiver(t, u, correctionIdx)
    }

    constructor (g: Stream, prc: Block -> Row, hash: Oracle)
      ensures this.g == g && this.prc == prc && this.hash == hash
    {
      this.g, this.prc, this.hash := g, prc, hash;
      t, u, correctionIdx := [], [], 0;
    }

    /** Both streams' rows, for every number of OTs. */
    method Init(seeds0: seq<Block>, seeds1: seq<Block>, numOt: nat)
      requires |seeds0| == |seeds1| == 512
      modifies this
      ensures State() == InitialReceiver(g, seeds0, seeds1, numOt)
    {
      hide StreamRow;
      var pos0, pos1 := new nat[512](_ => 0), new nat[512](_ => 0);
      t, u, correctionIdx := [], [], 0;
      for i := 0 to NumBatch1024(numOt)
        invariant pos0 != pos1 && forall c | 0 <= c < 512 :: pos0[c] == pos1[c] == 8 * i
        invariant correctionIdx == 0 && |t| == |u| == if 1024 * i <= numOt then 1024 * i else numOt
        invariant forall r | 0 <= r < |t| :: t[r] == StreamRow(g, seeds0, r) && u[r] == StreamRow(g, seeds1, r)
      {
        var num := BatchCount1024(numOt, i);
        var rows0 := BatchRows1024(g, seeds0, pos0, i, num);
        var rows1 := BatchRows1024(g, seeds1, pos1, i, num);
        t, u := t + rows0[..num], u + rows1[..num];
      }
    }

    /** Puts input's code on row idx and returns the encoding. */
    method Encode(idx: nat, input: Block, size: nat) returns (r: Result<seq<nat>>)
      requires idx < |t| == |u|
      modifies this`u
      ensures State() == if r.Ok? then EncodeStep(old(State()), idx, prc(input)) else old(State())
      ensures r == if size <= 16 then Ok(hash(t[idx], size)) else Err
    {
      hide Xor;
      if size > 16 {
        return Err;
      }
      var row := RowXor(u[idx], t[idx]);
      u := u[idx := RowXor(row, prc(input))];
      return Ok(hash(t[idx], size));
    }

    /** Uses up row idx without an input. */
    method ZeroEncode(idx: nat)
      requires idx < |t| == |u|
      modifies this`u
      ensures State() == EncodeStep(old(State()), idx, ZeroRow())
    {
      var row := RowXor(u[idx], t[idx]);
      RowXorZero(row);
      u := u[idx := row];
    }

    /** Hands over the next `count` correction rows, to be sent or returned as a buffer. */
    method ShiftCorrection(count: nat) returns (rows: seq<Row>)
      requires correctionIdx + count <= |u|
      modifies this`correctionIdx
      ensures (State(), rows) == ShiftStep(old(State()), count)
    {
      rows := u[correctionIdx..correctionIdx + count];
      correctionIdx := correctionIdx + count;
    }
  }

  class KkrtOtExtSender {
    const g: Stream
    const prc: Block -> Row
    const hash: Oracle
    var oprf: KkrtGroupPRF
    var correctionIdx: nat

    ghost predicate Valid()
      reads this
    {
      oprf.prc == prc && oprf.hash == hash
    }

    ghost function State(): Sender
      reads this, oprf
    {
      Sender(oprf.q, correctionIdx)
    }

    constructor (g: Stream, prc: Block -> Row, hash: Oracle)
      ensures this.g == g && this.prc == prc && this.hash == hash && Valid()
    {
      this.g, this.prc, this.hash := g, prc, hash;
      correctionIdx := 0;
      oprf := new KkrtGroupPRF(0, seq(4, _ => Zero()), prc, hash);
    }

    method Init(seeds: seq<Block>, choices: seq<bool>, numOt: nat) returns (ok: bool)
      modifies this
      ensures ok <==> |seeds| == |choices| == 512 && numOt > 0
      ensures ok ==> Valid() && fresh(oprf) && oprf.s == ChoiceRow(choices) && State() == InitialSender(g, seeds, numOt)
    {
      hide StreamRow, ChoiceRow;
      if !(|seeds| == |choices| == 512 && numOt > 0) {
        return false;
      }
      correctionIdx := 0;
      var s := BuildChoices(choices);
      var prf := new KkrtGroupPRF(numOt, s, prc, hash);
      oprf := prf;
      var pos := new nat[512](_ => 0);
      for i := 0 to NumBatch1024(numOt)
        invariant oprf == prf && correctionIdx == 0 && |prf.q| == numOt
        invariant forall c | 0 <= c < 512 :: pos[c] == 8 * i
        invariant forall r | 0 <= r < numOt && r < 1024 * i :: prf.q[r] == StreamRow(g, seeds, r)
      {
        var num := BatchCount1024(numOt, i);
        var rows := BatchRows1024(g, seeds, pos, i, num);
        var copied := prf.SetQ(rows[..], 1024 * i, num);
      }
      return true;
    }

    /** Masks the next correction rows in. The count must be the length of what arrives, and the
        rows must exist. */
    method RecvCorrection(rows: seq<Row>, count: nat) returns (ok: bool)
      requires Valid()
      modifies this`correctionIdx, oprf`q
      ensures Valid() && (ok <==> |rows| == count && old(correctionIdx) + count <= |old(oprf.q)|)
      ensures ok ==> State() == CorrectStep(old(State()), oprf.s, rows)
      ensures !ok ==> State() == old(State())
    {
      hide RowXor, RowAnd, CorrectStep;
      if |rows| != count {
        return false;
      }
      ghost var was := State();
      ok := oprf.CalcQ(rows, correctionIdx, count);
      if ok {
        CorrectedRows(was, oprf.s, rows, oprf.q);
        correctionIdx := correctionIdx + count;
      }
    }

    method Encode(idx: nat, input: Block, size: nat) returns (r: Result<seq<nat>>)
      requires Valid()
      ensures r == if idx < |oprf.q| then Ok(PrfAt(hash, prc, oprf.s, oprf.q[idx], input, size)) else Err
    {
      r := oprf.Eval(idx, input, size);
    }
  }

  function ZeroRow(): Row {
    seq(4, _ => Zero())
  }

  lemma RowXorZero(a: Row)
    ensures RowXor(a, ZeroRow()) == a
  {
    hide Xor, Zero;
    forall w | 0 <= w < 4
      ensures RowXor(a, ZeroRow())[w] == a[w]
    {
      XorZero(a[w]);
    }
  }

  function InitialReceiver(g: Stream, seeds0: seq<Block>, seeds1: seq<Block>, n: nat): Receiver
    requires |seeds0| == |seeds1| == 512
  {
    Receiver(seq(n, r requires 0 <= r < n => StreamRow(g, seeds0, r)),
             seq(n, r requires 0 <= r < n => StreamRow(g, seeds1, r)), 0)
  }

  function InitialSender(g: Stream, seeds: seq<Block>, n: nat): Sender
    requires |seeds| == 512
  {
    Sender(seq(n, r requires 0 <= r < n => StreamRow(g, seeds, r)), 0)
  }
}
