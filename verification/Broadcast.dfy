/** The binomial-tree broadcast (yasl/link/algorithm/broadcast.cc) as a step system, in the virtual
    rank space that has the root as rank 0, with the throttle that `SendAsync` waits for. */
module Broadcast {
  import opened Numbers
  import opened Words
  import opened Wrappers
  import opened Ranks
  import opened Channel

  // ---- Virtual ranks ----

  function RingOffset(begin: nat, end: nat, size: nat): nat
    requires size > 0
  {
    U64(U64(end - begin) + size) % size
  }

  /** Sending to `NextRank(stride)` and receiving from `PrevRank(stride)` is, in virtual ranks, adding
      and subtracting the stride. */
  lemma VirtualNeighbours(root: nat, rank: nat, stride: nat, n: nat)
    requires root < n && rank < n < 0x4000_0000_0000_0000 && stride < n
    ensures RingOffset(root, rank, n) < n && (RingOffset(root, rank, n) == 0 <==> rank == root)
    ensures var v := RingOffset(root, rank, n);
            && (v + stride < n ==> RingOffset(root, NextRank(rank, stride, n), n) == v + stride)
            && (stride <= v ==> RingOffset(root, PrevRank(rank, stride, n), n) == v - stride)
  {
    hide U64;
    RanksAreNeighbours(rank, stride, n);
    RingOffsetIsBehind(root, rank, n);
    RingOffsetIsBehind(root, Ahead(rank, stride, n), n);
    RingOffsetIsBehind(root, Behind(rank, stride, n), n);
  }

  lemma RingOffsetIsBehind(root: nat, rank: nat, n: nat)
    requires root < n && rank < n < 0x4000_0000_0000_0000
    ensures RingOffset(root, rank, n) == Behind(rank, root, n)
  {
    hide U64;
    WrapBack(rank - root, n);
    ModOnce(rank - root + n, n);
  }

  /** Every virtual rank belongs to exactly one rank. */
  lemma VirtualRanksAreOneToOne(root: nat, p: nat, q: nat, n: nat)
    requires root < n && p < n < 0x4000_0000_0000_0000 && q < n
    requires RingOffset(root, p, n) == RingOffset(root, q, n)
    ensures p == q
  {
    RingOffsetIsBehind(root, p, n);
    RingOffsetIsBehind(root, q, n);
  }

  // ---- The step system ----

  /** What a party does between two rounds: it waits for the throttle after a send, or has taken a
      message and not acked it. */
  datatype Busy = Free | Throttled(dst: nat, waitCount: nat) | Owing(src: nat)

  /** `left` rounds are still to run: the stride is 2^(left - 1), or 0 when the loop is over. */
  datatype Party = Party(window: nat, left: nat, received: bool, output: Buffer, busy: Busy)

  datatype Message = Message(src: nat, dst: nat, value: Buffer)

  /** A channel, by its two ends. */
  datatype Ends = Ends(src: nat, dst: nat)

  type Counter = map<Ends, nat>

  /** `sends` and `recvs` count the messages; `sent` and `acked` are the counters of all channels. */
  datatype Sys = Sys(
    parties: seq<Party>,
    inFlight: multiset<Message>,
    db: set<Message>,
    acks: multiset<Ends>,
    sent: Counter,
    acked: Counter,
    sends: nat,
    recvs: nat)

  datatype Step =
    | Advance(v: nat)
    | PassThrottle(v: nat)
    | Recv(v: nat, message: Message)
    | SendAck(v: nat)
    | Deliver(message: Message)
    | DeliverAck(ends: Ends)

  /** Every party calls with its own input and window; what was sent before has been acked. */
  datatype Setup = Setup(inputs: seq<Buffer>, windows: seq<nat>, before: Counter) {
    predicate Valid() {
      0 < |inputs| == |windows|
    }
  }

  /** The loop starts at `bit_floor` of the world size. */
  function World(c: Setup): Sys
    requires c.Valid()
  {
    Sys(seq(|c.inputs|, v requires 0 <= v < |c.inputs| =>
          Party(c.windows[v], FloorLog2(|c.inputs|) + 1, v == 0, c.inputs[v], Free)),
        multiset{}, {}, multiset{}, c.before, c.before, 0, 0)
  }

  predicate InLoop(s: Sys, v: nat) {
    v < |s.parties| && s.parties[v].left > 0
  }

  /** A party that has not received and whose virtual rank the stride divides has to wait for a message. */
  predicate Waiting(s: Sys, v: nat) {
    InLoop(s, v) && !s.parties[v].received && Low(v, s.parties[v].left - 1) == 0
  }

  predicate Enabled(s: Sys, step: Step) {
    match step
    case Advance(v) => InLoop(s, v) && s.parties[v].busy.Free? && !Waiting(s, v)
    case PassThrottle(v) =>
      && v < |s.parties| && s.parties[v].busy.Throttled?
      && ThrottleOpen(s.parties[v].window, Count(s.acked, Ends(v, s.parties[v].busy.dst)), s.parties[v].busy.waitCount)
    case Recv(v, m) =>
      Waiting(s, v) && s.parties[v].busy.Free? && m in s.db && m.dst == v && m.src + Pow2(s.parties[v].left - 1) == v
    case SendAck(v) => v < |s.parties| && s.parties[v].busy.Owing?
    case Deliver(m) => m in s.inFlight
    case DeliverAck(e) => e in s.acks
  }

  /** A received party sends ahead by the stride when somebody is there. */
  predicate Sends(s: Sys, v: nat)
    requires InLoop(s, v)
  {
    s.parties[v].received && v + Pow2(s.parties[v].left - 1) < |s.parties|
  }

  function WithParty(s: Sys, v: nat, party: Party): Sys
    requires v < |s.parties|
  {
    s.(parties := s.parties[v := party])
  }

  function Do(s: Sys, step: Step): Sys
    requires Enabled(s, step)
  {
    match step
    case Advance(v) =>
      var party := s.parties[v];
      if Sends(s, v) then
        var w := v + Pow2(party.left - 1);
        var e := Ends(v, w);
        WithParty(s, v, party.(left := party.left - 1, busy := Throttled(w, Count(s.sent, e) + 1)))
        .(inFlight := s.inFlight + multiset{Message(v, w, party.output)}, sent := Increment(s.sent, e), sends := s.sends + 1)
      else WithParty(s, v, party.(left := party.left - 1))
    case PassThrottle(v) => WithParty(s, v, s.parties[v].(busy := Free))
    case Recv(v, m) =>
      WithParty(s, v, s.parties[v].(left := s.parties[v].left - 1, received := true, output := m.value, busy := Owing(m.src)))
      .(db := s.db - {m}, recvs := s.recvs + 1)
    case SendAck(v) =>
      WithParty(s, v, s.parties[v].(busy := Free)).(acks := s.acks + multiset{Ends(s.parties[v].busy.src, v)})
    case Deliver(m) =>
      if m in s.db then s.(inFlight := s.inFlight - multiset{m}, acks := s.acks + multiset{Ends(m.src, m.dst)})
      else s.(inFlight := s.inFlight - multiset{m}, db := s.db + {m})
    case DeliverAck(e) => s.(acks := s.acks - multiset{e}, acked := Increment(s.acked, e))
  }

  predicate Run(c: Setup, states: seq<Sys>, steps: seq<Step>) {
    && c.Valid() && |states| == |steps| + 1 && states[0] == World(c)
    && forall i | 0 <= i < |steps| :: Enabled(states[i], steps[i]) && states[i + 1] == Do(states[i], steps[i])
  }

  // ---- The tree ----

  /** The position of the lowest set bit. */
  function LowBit(v: nat): nat
    requires v > 0
  {
    if v % 2 == 1 then 0 else 1 + LowBit(v / 2)
  }

  function Parent(v: nat): (u: nat)
    requires v > 0
    ensures u < v
  {
    LowBitFacts(v);
    v - Pow2(LowBit(v))
  }

  lemma {:induction false} LowBitFacts(v: nat)
    requires v > 0
    ensures Pow2(LowBit(v)) <= v
    ensures Low(v - Pow2(LowBit(v)), LowBit(v) + 1) == 0
  {
    if v % 2 == 0 {
      LowBitFacts(v / 2);
      assert (v - Pow2(LowBit(v))) / 2 == v / 2 - Pow2(LowBit(v / 2));
    }
  }

  /** A stride 2^k divides v exactly up to v's lowest set bit. */
  lemma {:induction false} LowZero(v: nat, k: nat)
    requires v > 0
    ensures Low(v, k) == 0 <==> k <= LowBit(v)
    decreases k
  {
    if k > 0 && v % 2 == 0 {
      LowZero(v / 2, k - 1);
    }
  }

  /** Adding a stride to a multiple of its double makes that stride the lowest set bit. */
  lemma {:induction false} ChildLowBit(u: nat, k: nat)
    requires Low(u, k + 1) == 0
    ensures LowBit(u + Pow2(k)) == k
    decreases k
  {
    if k > 0 {
      assert (u + Pow2(k)) / 2 == u / 2 + Pow2(k - 1);
      ChildLowBit(u / 2, k - 1);
    }
  }

  // ---- What every run keeps ----

  function Copies(s: Sys, m: Message): nat {
    s.inFlight[m] + if m in s.db then 1 else 0
  }

  /** The parent has sent to v. */
  predicate SentTo(s: Sys, v: nat)
    requires 0 < v < |s.parties|
  {
    s.parties[Parent(v)].left <= LowBit(v)
  }

  /** A party has received exactly when the loop is past its lowest set bit, and then holds the root's input. */
  predicate PartyInv(s: Sys, v: nat, input: Buffer)
    requires v < |s.parties|
  {
    && (s.parties[v].received <==> v == 0 || s.parties[v].left <= LowBit(v))
    && (s.parties[v].received ==> s.parties[v].output == input)
    && s.parties[v].left <= FloorLog2(|s.parties|) + 1
  }

  /** The one message to v exists from its sending by the parent to its reception. */
  predicate EdgeInv(s: Sys, v: nat, input: Buffer)
    requires 0 < v < |s.parties|
  {
    && Copies(s, Message(Parent(v), v, input)) == (if SentTo(s, v) && !s.parties[v].received then 1 else 0)
    && (s.parties[v].received ==> SentTo(s, v))
  }

  /** The message is the one from a parent to its child. */
  predicate IsEdge(m: Message, n: nat, input: Buffer) {
    0 < m.dst < n && m.src == Parent(m.dst) && m.value == input
  }

  ghost predicate Inv(s: Sys, input: Buffer) {
    && |s.parties| > 0
    && (forall v: nat | v < |s.parties| :: PartyInv(s, v, input))
    && (forall v: nat | 0 < v < |s.parties| :: EdgeInv(s, v, input))
    && (forall m | Copies(s, m) > 0 :: IsEdge(m, |s.parties|, input))
  }

  lemma WorldInv(c: Setup)
    requires c.Valid()
    ensures Inv(World(c), c.inputs[0])
  {
    var s, n := World(c), |c.inputs|;
    forall v: nat | 0 < v < n
      ensures LowBit(v) <= FloorLog2(n)
    {
      LowBitFacts(v);
      FloorLog2Meaning(n);
      if LowBit(v) > FloorLog2(n) {
        Pow2Monotone(FloorLog2(n) + 1, LowBit(v));
      }
    }
    hide LowBit, FloorLog2, Pow2;
  }

  /** A child hangs off its parent at the child's lowest set bit, which lies below the parent's. */
  lemma ChildOf(w: nat)
    requires w > 0
    ensures w == Parent(w) + Pow2(LowBit(w))
    ensures Parent(w) > 0 ==> LowBit(w) < LowBit(Parent(w))
  {
    hide Low, LowBit, Pow2;
    LowBitFacts(w);
    if Parent(w) > 0 {
      LowZero(Parent(w), LowBit(w) + 1);
    }
  }

  lemma AdvanceInv(s: Sys, v: nat, input: Buffer)
    requires Inv(s, input) && Enabled(s, Advance(v))
    ensures Inv(Do(s, Advance(v)), input)
  {
    hide Low, LowBit, Pow2, FloorLog2;
    var t, n, k := Do(s, Advance(v)), |s.parties|, s.parties[v].left - 1;
    assert PartyInv(s, v, input);
    if v > 0 {
      LowZero(v, k);
    } else {
      LowOfZero(k);
    }
    AdvanceCopies(s, v, input);
    forall w: nat | w < n
      ensures PartyInv(t, w, input)
    {
      assert PartyInv(s, w, input);
    }
    forall w: nat | 0 < w < n
      ensures EdgeInv(t, w, input)
    {
      assert EdgeInv(s, w, input);
      ChildOf(w);
    }
  }

  /** The only message an advancing party can create is the one to its child at the stride. */
  lemma AdvanceCopies(s: Sys, v: nat, input: Buffer)
    requires Inv(s, input) && Enabled(s, Advance(v))
    ensures var k := s.parties[v].left - 1;
            var t := Do(s, Advance(v));
            && (Sends(s, v) ==> IsEdge(Message(v, v + Pow2(k), input), |s.parties|, input) && LowBit(v + Pow2(k)) == k)
            && forall m :: Copies(t, m) == Copies(s, m) + if Sends(s, v) && m == Message(v, v + Pow2(k), input) then 1 else 0
  {
    hide Low, LowBit, Pow2, FloorLog2;
    var k := s.parties[v].left - 1;
    assert PartyInv(s, v, input);
    if Sends(s, v) {
      if v > 0 {
        LowZero(v, k + 1);
      } else {
        LowOfZero(k + 1);
      }
      ChildLowBit(v, k);
    }
  }

  lemma LowOfZero(k: nat)
    ensures Low(0, k) == 0
  {
  }

  lemma DeliverInv(s: Sys, m: Message, input: Buffer)
    requires Inv(s, input) && Enabled(s, Deliver(m))
    ensures m !in s.db
    ensures Inv(Do(s, Deliver(m)), input)
  {
    hide Low, LowBit, Pow2, FloorLog2;
    var t := Do(s, Deliver(m));
    assert IsEdge(m, |s.parties|, input);
    assert EdgeInv(s, m.dst, input);
    assert forall m' :: Copies(t, m') == Copies(s, m');
    forall w: nat | w < |s.parties|
      ensures PartyInv(t, w, input) && (w > 0 ==> EdgeInv(t, w, input))
    {
      assert PartyInv(s, w, input) && (w > 0 ==> EdgeInv(s, w, input));
    }
  }

  lemma RecvInv(s: Sys, v: nat, m: Message, input: Buffer)
    requires Inv(s, input) && Enabled(s, Recv(v, m))
    ensures v > 0 && m == Message(Parent(v), v, input)
    ensures Inv(Do(s, Recv(v, m)), input)
  {
    hide Low, LowBit, Pow2, FloorLog2;
    var t, n := Do(s, Recv(v, m)), |s.parties|;
    assert PartyInv(s, v, input);
    assert IsEdge(m, n, input);
    LowZero(v, s.parties[v].left - 1);
    assert EdgeInv(s, v, input);
    assert forall m' :: Copies(t, m') == Copies(s, m') - if m' == m then 1 else 0;
    forall w: nat | w < n
      ensures PartyInv(t, w, input)
    {
      assert PartyInv(s, w, input);
    }
    forall w: nat | 0 < w < n
      ensures EdgeInv(t, w, input)
    {
      assert EdgeInv(s, w, input);
      ChildOf(w);
    }
  }

  /** Throttle and acks do not concern the messages. */
  lemma OtherInv(s: Sys, step: Step, input: Buffer)
    requires Inv(s, input) && Enabled(s, step) && (step.PassThrottle? || step.SendAck? || step.DeliverAck?)
    ensures Inv(Do(s, step), input)
  {
    hide Low, LowBit, Pow2, FloorLog2;
    var t := Do(s, step);
    assert forall m :: Copies(t, m) == Copies(s, m);
    forall w: nat | w < |s.parties|
      ensures PartyInv(t, w, input) && (w > 0 ==> EdgeInv(t, w, input))
    {
      assert PartyInv(s, w, input) && (w > 0 ==> EdgeInv(s, w, input));
    }
  }

  lemma StepInv(s: Sys, step: Step, input: Buffer)
    requires Inv(s, input) && Enabled(s, step)
    ensures Inv(Do(s, step), input)
  {
    hide Inv, Enabled, Do;
    match step
    case Advance(v) => AdvanceInv(s, v, input);
    case Recv(v, m) => RecvInv(s, v, m, input);
    case Deliver(m) => DeliverInv(s, m, input);
    case _ => OtherInv(s, step, input);
  }

  // ---- Counting messages ----

  function SentSet(s: Sys): set<nat> {
    set v: nat | 0 < v < |s.parties| && SentTo(s, v)
  }

  function ReceivedSet(s: Sys): set<nat> {
    set v: nat | 0 < v < |s.parties| && s.parties[v].received
  }

  predicate Counted(s: Sys) {
    s.sends == |SentSet(s)| && s.recvs == |ReceivedSet(s)|
  }

  lemma WorldCounted(c: Setup)
    requires c.Valid()
    ensures Counted(World(c))
  {
    hide Low, LowBit, Pow2, FloorLog2;
    var s := World(c);
    NothingSent(c);
    assert SentSet(s) == {} && ReceivedSet(s) == {};
  }

  lemma NothingSent(c: Setup)
    requires c.Valid()
    ensures forall v: nat | 0 < v < |c.inputs| :: !World(c).parties[v].received && !SentTo(World(c), v)
  {
    hide Low, LowBit, Pow2, FloorLog2;
    WorldInv(c);
    forall v: nat | 0 < v < |c.inputs|
      ensures !World(c).parties[v].received && !SentTo(World(c), v)
    {
      assert PartyInv(World(c), v, c.inputs[0]);
    }
  }

  /** A step of v moves past exactly one possible child: the one at the stride, and only a party
      that has received can have it. */
  lemma PassedChild(s: Sys, step: Step, input: Buffer, w: nat)
    requires Inv(s, input) && Enabled(s, step) && (step.Advance? || step.Recv?) && 0 < w < |s.parties|
    ensures var k := s.parties[step.v].left - 1;
            && (SentTo(Do(s, step), w) <==> SentTo(s, w) || (Parent(w) == step.v && LowBit(w) == k))
            && (Parent(w) == step.v && LowBit(w) == k ==>
                  w == step.v + Pow2(k) && s.parties[step.v].received && !SentTo(s, w))
  {
    hide Low, LowBit, Pow2, FloorLog2;
    assert PartyInv(s, step.v, input);
    ChildOf(w);
  }

  lemma AdvanceSent(s: Sys, v: nat, input: Buffer, w: nat)
    requires Inv(s, input) && Enabled(s, Advance(v)) && 0 < w < |s.parties|
    ensures var child := v + Pow2(s.parties[v].left - 1);
            && (SentTo(Do(s, Advance(v)), w) <==> SentTo(s, w) || (Sends(s, v) && w == child))
            && (Sends(s, v) && w == child ==> !SentTo(s, w))
            && (Sends(s, v) ==> 0 < child < |s.parties| && Parent(child) == v)
  {
    hide Low, LowBit, Pow2, FloorLog2, SentTo, Inv, Parent;
    AdvanceCopies(s, v, input);
    PassedChild(s, Advance(v), input, w);
  }

  /** What an advancing party leaves to the others. */
  lemma AdvanceFrame(s: Sys, v: nat)
    requires Enabled(s, Advance(v))
    ensures var t := Do(s, Advance(v));
            && |t.parties| == |s.parties| && t.recvs == s.recvs && t.sends == s.sends + One(Sends(s, v))
            && forall w | 0 <= w < |s.parties| :: t.parties[w].received == s.parties[w].received
  {
  }

  lemma AdvanceCounted(s: Sys, v: nat, input: Buffer)
    requires Inv(s, input) && Counted(s) && Enabled(s, Advance(v))
    ensures Counted(Do(s, Advance(v)))
  {
    hide Low, LowBit, Pow2, FloorLog2, SentTo, Inv, Parent, Do, Waiting;
    var t, child := Do(s, Advance(v)), v + Pow2(s.parties[v].left - 1);
    AdvanceFrame(s, v);
    forall w: nat | 0 < w < |s.parties|
      ensures SentTo(t, w) <==> SentTo(s, w) || (Sends(s, v) && w == child)
      ensures Sends(s, v) && w == child ==> !SentTo(s, w)
      ensures Sends(s, v) ==> 0 < child < |s.parties|
    {
      AdvanceSent(s, v, input, w);
    }
    assert ReceivedSet(t) == ReceivedSet(s);
    if Sends(s, v) {
      AdvanceSent(s, v, input, child);
      assert SentSet(t) == SentSet(s) + {child};
    } else {
      assert SentSet(t) == SentSet(s);
    }
  }

  lemma RecvCounted(s: Sys, v: nat, m: Message, input: Buffer)
    requires Inv(s, input) && Counted(s) && Enabled(s, Recv(v, m))
    ensures Counted(Do(s, Recv(v, m)))
  {
    hide Low, LowBit, Pow2, FloorLog2, SentTo, Inv;
    var t := Do(s, Recv(v, m));
    RecvInv(s, v, m, input);
    forall w: nat | 0 < w < |s.parties|
      ensures SentTo(t, w) <==> SentTo(s, w)
    {
      PassedChild(s, Recv(v, m), input, w);
    }
    assert SentSet(t) == SentSet(s);
    assert ReceivedSet(t) == ReceivedSet(s) + {v};
  }

  lemma StepCounted(s: Sys, step: Step, input: Buffer)
    requires Inv(s, input) && Counted(s) && Enabled(s, step)
    ensures Counted(Do(s, step))
  {
    hide Inv, Enabled;
    match step
    case Advance(v) => AdvanceCounted(s, v, input);
    case Recv(v, m) => RecvCounted(s, v, m, input);
    case _ => OtherCounted(s, step);
  }

  lemma OtherSent(s: Sys, step: Step, w: nat)
    requires Enabled(s, step) && !step.Advance? && !step.Recv? && 0 < w < |s.parties|
    ensures SentTo(Do(s, step), w) == SentTo(s, w)
  {
    hide Low, LowBit, Pow2, Parent;
  }

  lemma OtherFrame(s: Sys, step: Step)
    requires Enabled(s, step) && !step.Advance? && !step.Recv?
    ensures var t := Do(s, step);
            && |t.parties| == |s.parties| && t.sends == s.sends && t.recvs == s.recvs
            && forall w | 0 <= w < |s.parties| :: t.parties[w].received == s.parties[w].received
  {
    hide Low, Pow2, ThrottleOpen;
  }

  lemma OtherCounted(s: Sys, step: Step)
    requires Counted(s) && Enabled(s, step) && !step.Advance? && !step.Recv?
    ensures Counted(Do(s, step))
  {
    hide SentTo, Do, Enabled;
    var t := Do(s, step);
    OtherFrame(s, step);
    forall w: nat | 0 < w < |s.parties|
      ensures SentTo(t, w) == SentTo(s, w)
    {
      OtherSent(s, step, w);
    }
    assert SentSet(t) == SentSet(s) && ReceivedSet(t) == ReceivedSet(s);
  }

  /** The virtual ranks other than the root's. */
  function NonRoots(n: nat): set<nat> {
    if n <= 1 then {} else NonRoots(n - 1) + {n - 1}
  }

  lemma {:induction false} NonRootsSize(n: nat)
    requires n > 0
    ensures |NonRoots(n)| == n - 1 && forall v: nat :: v in NonRoots(n) <==> 0 < v < n
  {
    if n > 1 {
      NonRootsSize(n - 1);
    }
  }

  lemma SameWorld(s: Sys, step: Step)
    requires Enabled(s, step)
    ensures |Do(s, step).parties| == |s.parties|
  {
  }

  // ---- Acks and the throttle ----

  /** The one message to w on its channel: counted when sent, acked once after its reception, and
      the count that its sender may wait for. */
  predicate ChannelInv(s: Sys, before: Counter, w: nat)
    requires 0 < w < |s.parties|
  {
    var e, p := Ends(Parent(w), w), s.parties[Parent(w)];
    && Count(s.sent, e) == Count(before, e) + One(SentTo(s, w))
    && s.acks[e] + Count(s.acked, e) == Count(before, e) + One(s.parties[w].received && !s.parties[w].busy.Owing?)
    && (p.busy.Throttled? && p.busy.dst == w ==> SentTo(s, w) && p.busy.waitCount == Count(before, e) + 1)
  }

  /** A party waits for a child's ack, or owes its parent one, and has the message in either case. */
  predicate BusyInv(s: Sys, v: nat)
    requires v < |s.parties|
  {
    match s.parties[v].busy
    case Free => true
    case Throttled(w, _) => s.parties[v].received && 0 < w < |s.parties| && Parent(w) == v
    case Owing(u) => s.parties[v].received && v > 0 && u == Parent(v)
  }

  ghost predicate AckInv(s: Sys, before: Counter) {
    && (forall w: nat | 0 < w < |s.parties| :: ChannelInv(s, before, w))
    && (forall v: nat | v < |s.parties| :: BusyInv(s, v))
  }

  lemma WorldAck(c: Setup)
    requires c.Valid()
    ensures AckInv(World(c), c.before)
  {
    hide Low, LowBit, Pow2, FloorLog2, SentTo, Parent;
    NothingSent(c);
    var s := World(c);
    forall w: nat | 0 < w < |s.parties|
      ensures ChannelInv(s, c.before, w)
    {
      assert !s.parties[w].received && !SentTo(s, w);
    }
  }

  lemma AdvanceChannel(s: Sys, before: Counter, v: nat, input: Buffer, w: nat)
    requires Inv(s, input) && Enabled(s, Advance(v)) && 0 < w < |s.parties| && ChannelInv(s, before, w)
    ensures ChannelInv(Do(s, Advance(v)), before, w)
  {
    hide Low, LowBit, Pow2, FloorLog2, SentTo, Parent, Inv, Waiting;
    AdvanceSent(s, v, input, w);
  }

  lemma AdvanceBusy(s: Sys, v: nat, input: Buffer, u: nat)
    requires Inv(s, input) && Enabled(s, Advance(v)) && u < |s.parties| && BusyInv(s, u)
    ensures BusyInv(Do(s, Advance(v)), u)
  {
    hide Low, LowBit, Pow2, FloorLog2, SentTo, Parent, Inv, Waiting;
    if Sends(s, v) {
      AdvanceCopies(s, v, input);
    }
  }

  lemma AdvanceAck(s: Sys, before: Counter, v: nat, input: Buffer)
    requires Inv(s, input) && AckInv(s, before) && Enabled(s, Advance(v))
    ensures AckInv(Do(s, Advance(v)), before)
  {
    hide Do, Enabled, ChannelInv, BusyInv, Inv;
    var t := Do(s, Advance(v));
    SameWorld(s, Advance(v));
    forall w: nat | 0 < w < |s.parties|
      ensures ChannelInv(t, before, w)
    {
      AdvanceChannel(s, before, v, input, w);
    }
    forall u: nat | u < |s.parties|
      ensures BusyInv(t, u)
    {
      AdvanceBusy(s, v, input, u);
    }
  }

  lemma RecvAck(s: Sys, before: Counter, v: nat, m: Message, input: Buffer)
    requires Inv(s, input) && AckInv(s, before) && Enabled(s, Recv(v, m))
    ensures AckInv(Do(s, Recv(v, m)), before)
  {
    hide Low, LowBit, Pow2, FloorLog2, SentTo, Parent, Inv;
    var t := Do(s, Recv(v, m));
    RecvInv(s, v, m, input);
    NotYetReceived(s, v, m, input);
    forall w: nat | 0 < w < |s.parties|
      ensures ChannelInv(t, before, w)
    {
      assert ChannelInv(s, before, w);
      PassedChild(s, Recv(v, m), input, w);
    }
    forall u: nat | u < |s.parties|
      ensures BusyInv(t, u)
    {
      assert BusyInv(s, u);
    }
  }

  lemma NotYetReceived(s: Sys, v: nat, m: Message, input: Buffer)
    requires Inv(s, input) && Enabled(s, Recv(v, m))
    ensures !s.parties[v].received
  {
  }

  lemma PassThrottleChannel(s: Sys, before: Counter, v: nat, w: nat)
    requires Enabled(s, PassThrottle(v)) && 0 < w < |s.parties| && ChannelInv(s, before, w)
    ensures ChannelInv(Do(s, PassThrottle(v)), before, w)
  {
    hide Parent, SentTo, ThrottleOpen;
    OtherSent(s, PassThrottle(v), w);
  }

  lemma SendAckChannel(s: Sys, before: Counter, v: nat, w: nat)
    requires Enabled(s, SendAck(v)) && 0 < w < |s.parties| && ChannelInv(s, before, w) && BusyInv(s, v)
    ensures ChannelInv(Do(s, SendAck(v)), before, w)
  {
    hide Parent, SentTo;
    OtherSent(s, SendAck(v), w);
  }

  lemma DeliveryChannel(s: Sys, before: Counter, step: Step, input: Buffer, w: nat)
    requires Inv(s, input) && Enabled(s, step) && (step.Deliver? || step.DeliverAck?)
    requires 0 < w < |s.parties| && ChannelInv(s, before, w)
    ensures ChannelInv(Do(s, step), before, w)
  {
    hide Parent, SentTo, Inv;
    OtherSent(s, step, w);
    if step.Deliver? {
      DeliverInv(s, step.message, input);
    }
  }

  lemma OtherChannel(s: Sys, before: Counter, step: Step, input: Buffer, w: nat)
    requires Inv(s, input) && Enabled(s, step) && !step.Advance? && !step.Recv?
    requires 0 < w < |s.parties| && ChannelInv(s, before, w) && (step.SendAck? ==> BusyInv(s, step.v))
    ensures ChannelInv(Do(s, step), before, w)
  {
    hide ChannelInv, Inv, Do;
    match step
    case PassThrottle(v) => PassThrottleChannel(s, before, v, w);
    case SendAck(v) => SendAckChannel(s, before, v, w);
    case _ => DeliveryChannel(s, before, step, input, w);
  }

  lemma OtherBusy(s: Sys, step: Step, u: nat)
    requires Enabled(s, step) && !step.Advance? && !step.Recv? && u < |s.parties| && BusyInv(s, u)
    ensures BusyInv(Do(s, step), u)
  {
    hide Parent;
  }

  lemma OtherAck(s: Sys, before: Counter, step: Step, input: Buffer)
    requires Inv(s, input) && AckInv(s, before) && Enabled(s, step) && !step.Advance? && !step.Recv?
    ensures AckInv(Do(s, step), before)
  {
    hide ChannelInv, BusyInv, Inv, Do;
    var t := Do(s, step);
    SameWorld(s, step);
    forall w: nat | 0 < w < |s.parties|
      ensures ChannelInv(t, before, w)
    {
      OtherChannel(s, before, step, input, w);
    }
    forall u: nat | u < |s.parties|
      ensures BusyInv(t, u)
    {
      OtherBusy(s, step, u);
    }
  }

  lemma StepAck(s: Sys, before: Counter, step: Step, input: Buffer)
    requires Inv(s, input) && AckInv(s, before) && Enabled(s, step)
    ensures AckInv(Do(s, step), before)
  {
    hide Inv, AckInv, Enabled, Do;
    match step
    case Advance(v) => AdvanceAck(s, before, v, input);
    case Recv(v, m) => RecvAck(s, before, v, m, input);
    case _ => OtherAck(s, before, step, input);
  }

  lemma {:induction false} RunInv(c: Setup, states: seq<Sys>, steps: seq<Step>, i: nat)
    requires Run(c, states, steps) && i < |states|
    ensures Inv(states[i], c.inputs[0]) && Counted(states[i]) && AckInv(states[i], c.before)
    ensures |states[i].parties| == |c.inputs|
  {
    hide Inv, Enabled, Do, Counted, AckInv;
    if i == 0 {
      WorldInv(c);
      WorldCounted(c);
      WorldAck(c);
    } else {
      RunInv(c, states, steps, i - 1);
      StepInv(states[i - 1], steps[i - 1], c.inputs[0]);
      StepCounted(states[i - 1], steps[i - 1], c.inputs[0]);
      StepAck(states[i - 1], c.before, steps[i - 1], c.inputs[0]);
      SameWorld(states[i - 1], steps[i - 1]);
    }
  }

  // ---- The theorems ----

  predicate Finished(s: Sys) {
    forall v | 0 <= v < |s.parties| :: s.parties[v].left == 0 && s.parties[v].busy.Free?
  }

  /** Agreement: in every run a party that has run its loop returns the root's input. */
  lemma EveryoneGetsTheRootsInput(c: Setup, states: seq<Sys>, steps: seq<Step>, i: nat, v: nat)
    requires Run(c, states, steps) && i < |states| && v < |c.inputs|
    ensures |states[i].parties| == |c.inputs|
    ensures states[i].parties[v].left == 0 ==> states[i].parties[v].output == c.inputs[0]
  {
    hide Run, FloorLog2, LowBit, EdgeInv, AckInv, Counted;
    RunInv(c, states, steps, i);
    assert PartyInv(states[i], v, c.inputs[0]);
  }

  /** In every run a reception is the party's first, and from the rank with its lowest set bit cleared. */
  lemma ReceivesFromParent(c: Setup, states: seq<Sys>, steps: seq<Step>, i: nat)
    requires Run(c, states, steps) && i < |steps| && steps[i].Recv?
    ensures var v := steps[i].v;
            && 0 < v < |states[i].parties| && !states[i].parties[v].received && states[i + 1].parties[v].received
            && steps[i].message == Message(Parent(v), v, c.inputs[0])
  {
    hide Inv, Counted, AckInv, Low, Pow2, LowBit;
    RunInv(c, states, steps, i);
    RecvInv(states[i], steps[i].v, steps[i].message, c.inputs[0]);
    assert Enabled(states[i], steps[i]) && states[i + 1] == Do(states[i], steps[i]);
  }

  /** A message still around is one whose destination has not received. */
  lemma UnreceivedOnly(s: Sys, m: Message, input: Buffer)
    requires Inv(s, input)
    ensures Copies(s, m) > 0 ==> 0 < m.dst < |s.parties| && !s.parties[m.dst].received
  {
    if Copies(s, m) > 0 {
      assert IsEdge(m, |s.parties|, input) && EdgeInv(s, m.dst, input);
    }
  }

  /** When all parties are through, n - 1 messages have been sent, as many received, and none is left over. */
  lemma AllMessagesMatched(c: Setup, states: seq<Sys>, steps: seq<Step>, i: nat)
    requires Run(c, states, steps) && i < |states| && Finished(states[i])
    ensures states[i].sends == states[i].recvs == |c.inputs| - 1
    ensures states[i].inFlight == multiset{} && states[i].db == {}
  {
    hide Run, FloorLog2, LowBit, AckInv;
    RunInv(c, states, steps, i);
    var s, n := states[i], |c.inputs|;
    forall v: nat | v < n
      ensures s.parties[v].received && (v > 0 ==> SentTo(s, v))
    {
      assert PartyInv(s, v, c.inputs[0]);
    }
    NonRootsSize(n);
    assert SentSet(s) == ReceivedSet(s) == NonRoots(n);
    forall m
      ensures s.inFlight[m] == 0 && m !in s.db
    {
      UnreceivedOnly(s, m, c.inputs[0]);
    }
  }

  // ---- Progress ----

  /** A party that is due to receive can, or its message can be delivered. */
  lemma ReceptionMoves(s: Sys, w: nat, input: Buffer) returns (step: Step)
    requires Inv(s, input) && 0 < w < |s.parties| && SentTo(s, w) && Waiting(s, w) && s.parties[w].busy.Free?
    ensures Enabled(s, step)
  {
    hide Low, LowBit, Pow2, FloorLog2;
    var m := Message(Parent(w), w, input);
    assert PartyInv(s, w, input) && EdgeInv(s, w, input);
    LowZero(w, s.parties[w].left - 1);
    ChildOf(w);
    step := if m in s.db then Recv(w, m) else Deliver(m);
  }

  /** What a throttled party waits for can go on: its child advances, receives or acks. */
  lemma ThrottledMoves(s: Sys, before: Counter, v: nat, input: Buffer) returns (step: Step)
    requires Inv(s, input) && AckInv(s, before) && v < |s.parties| && s.parties[v].busy.Throttled?
    ensures Enabled(s, step)
  {
    hide Low, LowBit, Pow2, FloorLog2, SentTo, Parent;
    assert BusyInv(s, v);
    var w := s.parties[v].busy.dst;
    assert ChannelInv(s, before, w) && BusyInv(s, w) && PartyInv(s, w, input);
    if s.parties[w].received {
      step := if s.parties[w].busy.Owing? then SendAck(w)
      else if Ends(v, w) in s.acks then DeliverAck(Ends(v, w)) else PassThrottle(v);
    } else if Waiting(s, w) {
      step := ReceptionMoves(s, w, input);
    } else {
      step := Advance(w);
    }
  }

  /** The first party, by virtual rank, that is not through its loop. */
  lemma {:induction false} FirstUnfinished(s: Sys, v: nat) returns (u: nat)
    requires v < |s.parties| && s.parties[v].left > 0
    ensures u <= v && s.parties[u].left > 0 && forall w | 0 <= w < u :: s.parties[w].left == 0
  {
    if w :| 0 <= w < v && s.parties[w].left > 0 {
      u := FirstUnfinished(s, w);
    } else {
      u := v;
    }
  }

  /** Nobody is busy: the first party not through its loop advances or receives. */
  lemma FreeMoves(s: Sys, v: nat, input: Buffer) returns (step: Step)
    requires Inv(s, input) && v < |s.parties| && s.parties[v].left > 0 && s.parties[v].busy.Free?
    requires forall w | 0 <= w < v :: s.parties[w].left == 0
    ensures Enabled(s, step)
  {
    hide Low, LowBit, Pow2, FloorLog2;
    assert PartyInv(s, v, input);
    if Waiting(s, v) {
      step := ReceptionMoves(s, v, input);
    } else {
      step := Advance(v);
    }
  }

  /** Progress: whatever the windows, in every state of every run in which somebody is not through,
      some step can be taken. */
  lemma NeverStuck(c: Setup, states: seq<Sys>, steps: seq<Step>, i: nat) returns (step: Step)
    requires Run(c, states, steps) && i < |states| && !Finished(states[i])
    ensures Enabled(states[i], step)
  {
    hide Run, Inv, AckInv, Counted, Enabled;
    RunInv(c, states, steps, i);
    var s := states[i];
    if v :| 0 <= v < |s.parties| && s.parties[v].busy.Throttled? {
      step := ThrottledMoves(s, c.before, v, c.inputs[0]);
    } else if v :| 0 <= v < |s.parties| && s.parties[v].busy.Owing? {
      step := SendAck(v);
      OwingMoves(s, v);
    } else {
      var straggler :| 0 <= straggler < |s.parties| && s.parties[straggler].left > 0;
      var v := FirstUnfinished(s, straggler);
      step := FreeMoves(s, v, c.inputs[0]);
    }
  }

  lemma OwingMoves(s: Sys, v: nat)
    requires v < |s.parties| && s.parties[v].busy.Owing?
    ensures Enabled(s, SendAck(v))
  {
  }

  /** The steps a party still causes: three a round, with the deliveries. */
  function StepsLeft(p: Party): int {
    3 * p.left + match p.busy
                 case Free => 0
                 case Throttled(_, _) => 1
                 case Owing(_) => 2
  }

  function AllStepsLeft(parties: seq<Party>): nat {
    TotalNat((p: Party) => StepsLeft(p), parties);
    Total((p: Party) => StepsLeft(p), parties)
  }

  function Weight(s: Sys): nat {
    AllStepsLeft(s.parties) + |s.inFlight| + |s.acks|
  }

  lemma PartyWeight(s: Sys, t: Sys, v: nat)
    requires v < |s.parties| == |t.parties| && t.parties == s.parties[v := t.parties[v]]
    ensures Weight(t) - Weight(s) ==
            StepsLeft(t.parties[v]) - StepsLeft(s.parties[v]) + |t.inFlight| - |s.inFlight| + |t.acks| - |s.acks|
  {
    hide StepsLeft, Total;
    TotalUpdate((p: Party) => StepsLeft(p), s.parties, v, t.parties[v]);
  }

  lemma DeliveryWeight(s: Sys, step: Step, input: Buffer)
    requires Inv(s, input) && Enabled(s, step) && (step.Deliver? || step.DeliverAck?)
    ensures Weight(Do(s, step)) < Weight(s)
  {
    hide Inv, AllStepsLeft;
    match step
    case Deliver(m) =>
      DeliverInv(s, m, input);
      assert |s.inFlight - multiset{m}| == |s.inFlight| - 1;
    case DeliverAck(e) => assert |s.acks - multiset{e}| == |s.acks| - 1;
  }

  lemma WeightDecreases(s: Sys, step: Step, input: Buffer)
    requires Inv(s, input) && Enabled(s, step)
    ensures Weight(Do(s, step)) < Weight(s)
  {
    hide Inv, Weight, Low, Pow2;
    match step
    case Advance(v) => PartyWeight(s, Do(s, step), v);
    case PassThrottle(v) => PartyWeight(s, Do(s, step), v);
    case Recv(v, _) => PartyWeight(s, Do(s, step), v);
    case SendAck(v) => PartyWeight(s, Do(s, step), v);
    case _ => DeliveryWeight(s, step, input);
  }

  lemma AllStart(c: Setup)
    requires c.Valid()
    ensures Weight(World(c)) == |c.inputs| * (3 * (FloorLog2(|c.inputs|) + 1))
  {
    hide FloorLog2, Total;
    TotalConstant((p: Party) => StepsLeft(p), World(c).parties, 3 * (FloorLog2(|c.inputs|) + 1));
  }

  /** Every run ends: n parties take at most 3 n (floor(log2(n)) + 1) steps. */
  lemma {:induction false} RunsAreFinite(c: Setup, states: seq<Sys>, steps: seq<Step>, i: nat)
    requires Run(c, states, steps) && i < |states|
    ensures i + Weight(states[i]) <= |c.inputs| * (3 * (FloorLog2(|c.inputs|) + 1))
  {
    hide Do, Enabled, Inv, FloorLog2, Counted, AckInv, Weight;
    if i == 0 {
      AllStart(c);
    } else {
      RunsAreFinite(c, states, steps, i - 1);
      RunInv(c, states, steps, i - 1);
      WeightDecreases(states[i - 1], steps[i - 1], c.inputs[0]);
    }
  }
}
