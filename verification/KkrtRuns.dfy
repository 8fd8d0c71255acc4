/** Runs of the streaming KKRT oblivious PRF: the two parties' states, the correction batches on
    their way, and what every run keeps. */
module KkrtRuns {
  import opened Words
  import opened OtRows
  import opened Kkrt
  import opened KkrtStream

  /** What both parties start from. */
  datatype Setup = Setup(g: Stream, prc: Block -> Row, hash: Oracle, seeds: seq<Block>, choices: seq<bool>,
                         seeds0: seq<Block>, seeds1: seq<Block>, numOt: nat)
  {
    predicate Valid() {
      |seeds| == 512 && BaseOt(seeds, choices, seeds0, seeds1)
    }

    function S(): Row
      requires Valid()
    {
      ChoiceRow(choices)
    }
  }

  /** Both parties, the batches sent and not yet received (in order), and the code put on each row so far. */
  datatype Joint = Joint(receiver: Receiver, sender: Sender, wire: seq<seq<Row>>, codes: map<nat, Row>)

  datatype Event =
    | Encode(idx: nat, x: Block)
    | ZeroEncode(idx: nat)
    | SendCorrection(count: nat)
    | RecvCorrection(count: nat)

  predicate Initial(c: Setup, a: Joint)
    requires c.Valid()
  {
    && a.receiver == InitialReceiver(c.g, c.seeds0, c.seeds1, c.numOt)
    && a.sender == InitialSender(c.g, c.seeds, c.numOt)
    && a.wire == [] && a.codes == map[]
  }

  /** A row may be encoded once, before its correction is sent. */
  predicate MayEncode(a: Joint, idx: nat) {
    idx < |a.receiver.t| == |a.receiver.u| && idx !in a.codes && a.receiver.correctionIdx <= idx
  }

  predicate Next(c: Setup, a: Joint, e: Event, b: Joint)
    requires c.Valid()
  {
    match e
    case Encode(idx, x) =>
      MayEncode(a, idx) && b == a.(receiver := EncodeStep(a.receiver, idx, c.prc(x)), codes := a.codes[idx := c.prc(x)])
    case ZeroEncode(idx) =>
      MayEncode(a, idx) && b == a.(receiver := EncodeStep(a.receiver, idx, ZeroRow()), codes := a.codes[idx := ZeroRow()])
    case SendCorrection(count) =>
      && a.receiver.correctionIdx + count <= |a.receiver.u|
      && var (r, rows) := ShiftStep(a.receiver, count);
      b == a.(receiver := r, wire := a.wire + [rows])
    case RecvCorrection(count) =>
      && a.wire != [] && |a.wire[0]| == count && a.sender.correctionIdx + count <= |a.sender.q|
      && b == a.(sender := CorrectStep(a.sender, c.S(), a.wire[0]), wire := a.wire[1..])
  }

  predicate Run(c: Setup, states: seq<Joint>, events: seq<Event>)
    requires c.Valid()
  {
    && |states| == |events| + 1
    && Initial(c, states[0])
    && forall i | 0 <= i < |events| :: Next(c, states[i], events[i], states[i + 1])
  }

  function Flat(wire: seq<seq<Row>>): seq<Row> {
    if wire == [] then [] else wire[0] + Flat(wire[1..])
  }

  lemma {:induction false} FlatPush(wire: seq<seq<Row>>, rows: seq<Row>)
    ensures Flat(wire + [rows]) == Flat(wire) + rows
  {
    if wire == [] {
      assert wire + [rows] == [rows] && [rows][1..] == [];
    } else {
      assert (wire + [rows])[1..] == wire[1..] + [rows];
      FlatPush(wire[1..], rows);
    }
  }

  /** The receiver's correction row r, encoded or not. */
  function RowOf(c: Setup, a: Joint, r: nat): Row
    requires c.Valid()
  {
    if r in a.codes then CorrectionRow(c.g, c.seeds0, c.seeds1, r, a.codes[r]) else StreamRow(c.g, c.seeds1, r)
  }

  ghost predicate ReceiverInv(c: Setup, a: Joint)
    requires c.Valid()
  {
    && |a.receiver.t| == |a.receiver.u| == c.numOt && a.receiver.correctionIdx <= c.numOt
    && (forall r | 0 <= r < c.numOt :: a.receiver.t[r] == StreamRow(c.g, c.seeds0, r))
    && (forall r | 0 <= r < c.numOt :: a.receiver.u[r] == RowOf(c, a, r))
  }

  /** The batches on their way are the rows between the two parties' positions. */
  ghost predicate WireInv(c: Setup, a: Joint)
    requires c.Valid()
  {
    && a.sender.correctionIdx <= a.receiver.correctionIdx <= |a.receiver.u|
    && Flat(a.wire) == a.receiver.u[a.sender.correctionIdx..a.receiver.correctionIdx]
  }

  ghost predicate SenderInv(c: Setup, a: Joint)
    requires c.Valid()
  {
    && |a.sender.q| == c.numOt == |a.receiver.u| && a.sender.correctionIdx <= c.numOt
    && forall r | 0 <= r < c.numOt ::
         a.sender.q[r] == if r < a.sender.correctionIdx
         then RowXor(StreamRow(c.g, c.seeds, r), RowAnd(a.receiver.u[r], c.S()))
         else StreamRow(c.g, c.seeds, r)
  }

  ghost predicate Inv(c: Setup, a: Joint)
    requires c.Valid()
  {
    ReceiverInv(c, a) && WireInv(c, a) && SenderInv(c, a)
  }

  lemma InitialInv(c: Setup, a: Joint)
    requires c.Valid() && Initial(c, a)
    ensures Inv(c, a)
  {
    hide StreamRow, RowXor, RowAnd, CorrectionRow;
  }

  lemma EncodeInv(c: Setup, a: Joint, idx: nat, code: Row, b: Joint)
    requires c.Valid() && Inv(c, a) && MayEncode(a, idx)
    requires b == a.(receiver := EncodeStep(a.receiver, idx, code), codes := a.codes[idx := code])
    ensures Inv(c, b)
  {
    hide StreamRow, RowXor, RowAnd;
    assert b.receiver.u[idx] == CorrectionRow(c.g, c.seeds0, c.seeds1, idx, code);
    assert b.receiver.u[a.sender.correctionIdx..a.receiver.correctionIdx]
        == a.receiver.u[a.sender.correctionIdx..a.receiver.correctionIdx];
  }

  lemma SendInv(c: Setup, a: Joint, count: nat, b: Joint)
    requires c.Valid() && Inv(c, a) && Next(c, a, SendCorrection(count), b)
    ensures Inv(c, b)
  {
    hide StreamRow, RowXor, RowAnd, CorrectionRow, Flat;
    FlatPush(a.wire, a.receiver.u[a.receiver.correctionIdx..b.receiver.correctionIdx]);
  }

  lemma RecvInv(c: Setup, a: Joint, count: nat, b: Joint)
    requires c.Valid() && Inv(c, a) && Next(c, a, RecvCorrection(count), b)
    ensures Inv(c, b)
  {
    hide StreamRow, RowXor, RowAnd, CorrectionRow;
    var from := a.sender.correctionIdx;
    var flight := a.receiver.u[from..a.receiver.correctionIdx];
    assert flight == a.wire[0] + Flat(a.wire[1..]);
    assert a.wire[0] == flight[..count] == a.receiver.u[from..from + count];
    assert Flat(b.wire) == flight[count..] == a.receiver.u[from + count..a.receiver.correctionIdx];
  }

  lemma NextInv(c: Setup, a: Joint, e: Event, b: Joint)
    requires c.Valid() && Inv(c, a) && Next(c, a, e, b)
    ensures Inv(c, b)
  {
    hide Inv, EncodeStep, CorrectStep, ShiftStep;
    match e
    case Encode(idx, x) => EncodeInv(c, a, idx, c.prc(x), b);
    case ZeroEncode(idx) => EncodeInv(c, a, idx, ZeroRow(), b);
    case SendCorrection(count) => SendInv(c, a, count, b);
    case RecvCorrection(count) => RecvInv(c, a, count, b);
  }

  lemma {:induction false} RunInv(c: Setup, states: seq<Joint>, events: seq<Event>, i: nat)
    requires c.Valid() && Run(c, states, events) && i < |states|
    ensures Inv(c, states[i])
  {
    hide Inv, Next, Initial;
    if i == 0 {
      InitialInv(c, states[0]);
    } else {
      RunInv(c, states, events, i - 1);
      NextInv(c, states[i - 1], events[i - 1], states[i]);
    }
  }

  /** In every run and at every moment: for each corrected row the sender's row is the receiver's
      with the row's code masked in by the choices. */
  lemma CorrectedRowsCorrelate(c: Setup, states: seq<Joint>, events: seq<Event>, i: nat, r: nat)
    requires c.Valid() && Run(c, states, events) && i < |states|
    requires r < states[i].sender.correctionIdx && r in states[i].codes
    ensures r < |states[i].sender.q| == |states[i].receiver.t|
    ensures states[i].sender.q[r] == RowXor(states[i].receiver.t[r], RowAnd(states[i].codes[r], c.S()))
  {
    hide Run, StreamRow, RowXor, RowAnd, CorrectionRow, WireInv;
    RunInv(c, states, events, i);
    RowCorrelation(c.g, c.seeds, c.choices, c.seeds0, c.seeds1, r, states[i].codes[r]);
  }

  /** ... hence, for every row whose correction has arrived and that was encoded with x, the
      sender's encoding of x is the receiver's. */
  lemma EncodingsAgree(c: Setup, states: seq<Joint>, events: seq<Event>, i: nat, r: nat, x: Block, size: nat)
    requires c.Valid() && Run(c, states, events) && i < |states|
    requires r < states[i].sender.correctionIdx && r in states[i].codes && states[i].codes[r] == c.prc(x)
    ensures r < |states[i].sender.q| == |states[i].receiver.t|
    ensures PrfAt(c.hash, c.prc, c.S(), states[i].sender.q[r], x, size) == c.hash(states[i].receiver.t[r], size)
  {
    hide Run, RowXor, RowAnd;
    CorrectedRowsCorrelate(c, states, events, i, r);
    RowUnmask(states[i].receiver.t[r], RowAnd(c.prc(x), c.S()));
  }

  /** Encode events are what puts codes on rows: a row's code stays the one it was encoded with. */
  lemma {:induction false} CodeStays(c: Setup, states: seq<Joint>, events: seq<Event>, i: nat, k: nat)
    requires c.Valid() && Run(c, states, events) && k < i < |states| && events[k].Encode?
    ensures events[k].idx in states[i].codes && states[i].codes[events[k].idx] == c.prc(events[k].x)
  {
    assert Next(c, states[i - 1], events[i - 1], states[i]);
    if k < i - 1 {
      CodeStays(c, states, events, i - 1, k);
    }
  }

  /** The streaming OPRF, over whole runs: if x was encoded at row r and the correction of r has
      arrived, both parties' encodings of x at r are equal from then on. */
  lemma StreamingOprf(c: Setup, states: seq<Joint>, events: seq<Event>, k: nat, i: nat, size: nat)
    requires c.Valid() && Run(c, states, events) && k < i < |states| && events[k].Encode?
    requires events[k].idx < states[i].sender.correctionIdx
    ensures events[k].idx < |states[i].sender.q| == |states[i].receiver.t|
    ensures PrfAt(c.hash, c.prc, c.S(), states[i].sender.q[events[k].idx], events[k].x, size)
         == c.hash(states[i].receiver.t[events[k].idx], size)
  {
    hide Next, PrfAt;
    CodeStays(c, states, events, i, k);
    EncodingsAgree(c, states, events, i, events[k].idx, events[k].x, size);
  }
}
