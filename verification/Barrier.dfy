/** The dissemination barrier (yasl/link/algorithm/barrier.cc) as a step system: any number of
    parties, any interleaving, a network that delivers in any order, and the throttle of every
    party's channels, which `SendAsync` waits for. */
module Barrier {
  import opened Numbers
  import opened Words
  import opened Wrappers
  import opened Ranks
  import opened Channel

  /** Where a party is in a round: its message sent and counted, past the throttle, its message
      received but not yet acked. */
  datatype Stage = Outside | Sending | Throttled(waitCount: nat) | Receiving | Owing

  /** A party in round `round` with offset 2^round, and the window of its channels. It has left once
      the offset reaches the world size. */
  datatype Party = Party(window: nat, stage: Stage, round: nat)

  /** A message is known by its two ends: all of them carry the same event key. Its ack is known
      by the same two ends, and so is the channel it travels on. */
  datatype Message = Message(src: nat, dst: nat)

  type Counter = map<Message, nat>

  /** `sent` and `acked` are the counters of all channels. */
  datatype Sys = Sys(
    parties: seq<Party>,
    inFlight: multiset<Message>,
    db: set<Message>,
    acks: multiset<Message>,
    sent: Counter,
    acked: Counter)

  datatype Step =
    | Enter(rank: nat)
    | Send(rank: nat)
    | PassThrottle(rank: nat)
    | Deliver(message: Message)
    | Recv(rank: nat)
    | SendAck(rank: nat)
    | DeliverAck(message: Message)

  /** Party p calls with window windows[p]; whatever was sent before the barrier has been acked. */
  function World(windows: seq<nat>, before: Counter): Sys {
    Sys(seq(|windows|, p requires 0 <= p < |windows| => Party(windows[p], Outside, 0)),
        multiset{}, {}, multiset{}, before, before)
  }

  predicate InLoop(s: Sys, p: nat) {
    p < |s.parties| && !s.parties[p].stage.Outside? && Pow2(s.parties[p].round) < |s.parties|
  }

  predicate Left(s: Sys, p: nat) {
    p < |s.parties| && s.parties[p].stage.Sending? && Pow2(s.parties[p].round) >= |s.parties|
  }

  /** The party a round's message comes from, and the one it goes to. */
  function Source(p: nat, k: nat, n: nat): nat
    requires p < n && Pow2(k) < n
  {
    Behind(p, Pow2(k), n)
  }

  function Target(p: nat, k: nat, n: nat): nat
    requires p < n && Pow2(k) < n
  {
    Ahead(p, Pow2(k), n)
  }

  /** The messages of party p's round. */
  function Outgoing(s: Sys, p: nat): Message
    requires InLoop(s, p)
  {
    Message(p, Target(p, s.parties[p].round, |s.parties|))
  }

  function Incoming(s: Sys, p: nat): Message
    requires InLoop(s, p)
  {
    Message(Source(p, s.parties[p].round, |s.parties|), p)
  }

  predicate Enabled(s: Sys, step: Step) {
    match step
    case Enter(p) => p < |s.parties| && s.parties[p].stage.Outside?
    case Send(p) => InLoop(s, p) && s.parties[p].stage.Sending?
    case PassThrottle(p) =>
      && InLoop(s, p) && s.parties[p].stage.Throttled?
      && ThrottleOpen(s.parties[p].window, Count(s.acked, Outgoing(s, p)), s.parties[p].stage.waitCount)
    case Deliver(m) => m in s.inFlight
    case Recv(p) => InLoop(s, p) && s.parties[p].stage.Receiving? && Incoming(s, p) in s.db
    case SendAck(p) => InLoop(s, p) && s.parties[p].stage.Owing?
    case DeliverAck(m) => m in s.acks
  }

  function At(s: Sys, p: nat, stage: Stage): Sys
    requires p < |s.parties|
  {
    s.(parties := s.parties[p := s.parties[p].(stage := stage)])
  }

  /** One atomic step. The message database holds one message per key and acks a second one away. */
  function Do(s: Sys, step: Step): Sys
    requires Enabled(s, step)
  {
    match step
    case Enter(p) => At(s, p, Sending)
    case Send(p) =>
      var m := Outgoing(s, p);
      At(s, p, Throttled(Count(s.sent, m) + 1)).(inFlight := s.inFlight + multiset{m}, sent := Increment(s.sent, m))
    case PassThrottle(p) => At(s, p, Receiving)
    case Deliver(m) =>
      if m in s.db then s.(inFlight := s.inFlight - multiset{m}, acks := s.acks + multiset{m})
      else s.(inFlight := s.inFlight - multiset{m}, db := s.db + {m})
    case Recv(p) => At(s, p, Owing).(db := s.db - {Incoming(s, p)})
    case SendAck(p) =>
      s.(parties := s.parties[p := Party(s.parties[p].window, Sending, s.parties[p].round + 1)],
      acks := s.acks + multiset{Incoming(s, p)})
    case DeliverAck(m) => s.(acks := s.acks - multiset{m}, acked := Increment(s.acked, m))
  }

  /** The states a sequence of steps leads through. */
  predicate Run(windows: seq<nat>, before: Counter, states: seq<Sys>, steps: seq<Step>) {
    && |states| == |steps| + 1 && states[0] == World(windows, before)
    && forall i | 0 <= i < |steps| :: Enabled(states[i], steps[i]) && states[i + 1] == Do(states[i], steps[i])
  }

  // ---- What every run keeps ----

  /** How far a party has come, four stages a round. */
  function Progress(p: Party): nat {
    4 * p.round + match p.stage
                  case Outside => 0
                  case Sending => 0
                  case Throttled(_) => 1
                  case Receiving => 2
                  case Owing => 3
  }

  predicate HasSent(p: Party, k: nat) { Progress(p) > 4 * k }

  predicate HasPassed(p: Party, k: nat) { Progress(p) > 4 * k + 1 }

  predicate HasReceived(p: Party, k: nat) { Progress(p) > 4 * k + 2 }

  predicate HasAcked(p: Party, k: nat) { Progress(p) > 4 * k + 3 }

  /** How many copies of a message exist, on the wire or in the database. */
  function Copies(s: Sys, m: Message): nat {
    s.inFlight[m] + if m in s.db then 1 else 0
  }

  /** Round k between party d and its source. The message exists, exactly once, from its sending to
      its reception, and nothing is received that was not sent; the channel's counters have moved
      by this one message, which is acked once. */
  predicate RoundInv(s: Sys, before: Counter, d: nat, k: nat)
    requires d < |s.parties| && Pow2(k) < |s.parties|
  {
    var src, dst := s.parties[Source(d, k, |s.parties|)], s.parties[d];
    var m := Message(Source(d, k, |s.parties|), d);
    && Copies(s, m) == One(HasSent(src, k) && !HasReceived(dst, k))
    && (HasReceived(dst, k) ==> HasSent(src, k))
    && s.acks[m] + Count(s.acked, m) == Count(before, m) + One(HasAcked(dst, k))
    && Count(s.sent, m) == Count(before, m) + One(HasSent(src, k))
    && (src.round == k && src.stage.Throttled? ==> src.stage.waitCount == Count(before, m) + 1)
  }

  /** A party is in no round that the loop does not run. */
  predicate PartyInv(p: Party, n: nat) {
    && (p.stage.Outside? ==> p.round == 0)
    && (p.round > 0 ==> Pow2(p.round - 1) < n)
    && (!p.stage.Outside? && !p.stage.Sending? ==> Pow2(p.round) < n)
  }

  /** The message belongs to round k. */
  predicate OfRound(m: Message, k: nat, n: nat) {
    m.dst < n && Pow2(k) < n && m.src == Source(m.dst, k, n)
  }

  ghost predicate Inv(s: Sys, before: Counter) {
    && (forall p | 0 <= p < |s.parties| :: PartyInv(s.parties[p], |s.parties|))
    && (forall m | Copies(s, m) > 0 :: exists k: nat :: OfRound(m, k, |s.parties|))
    && (forall d: nat, k: nat | d < |s.parties| && Pow2(k) < |s.parties| :: RoundInv(s, before, d, k))
  }

  /** Offsets below the world size give distinct peers, so the two ends tell a message's round. */
  lemma RoundsHaveDistinctPeers(d: nat, j: nat, k: nat, n: nat)
    requires d < n && Pow2(j) < n && Pow2(k) < n && j != k
    ensures Source(d, j, n) != Source(d, k, n)
    ensures Source(d, j, n) != d
  {
    if j < k {
      Pow2Less(j, k);
    } else {
      Pow2Less(k, j);
    }
  }

  lemma {:induction false} Pow2Less(a: nat, b: nat)
    requires a < b
    ensures Pow2(a) < Pow2(b)
  {
    if a + 1 < b {
      Pow2Less(a, b - 1);
    }
  }

  /** Two rounds' messages with the same ends are of the same round. */
  lemma SameRound(d: nat, j: nat, k: nat, n: nat)
    requires d < n && Pow2(j) < n && Pow2(k) < n
    ensures Source(d, j, n) == Source(d, k, n) ==> j == k
    ensures Source(d, k, n) < n && Source(d, k, n) != d && Target(Source(d, k, n), k, n) == d
    ensures Target(d, k, n) < n && Source(Target(d, k, n), k, n) == d
  {
    AheadBehind(d, Pow2(k), n);
    if j != k {
      RoundsHaveDistinctPeers(d, j, k, n);
    }
  }

  lemma WorldInv(windows: seq<nat>, before: Counter)
    ensures Inv(World(windows, before), before)
  {
  }

  /** There is never a second copy of a message: the one event key is not ambiguous. */
  lemma OneCopy(s: Sys, before: Counter, m: Message)
    requires Inv(s, before)
    ensures Copies(s, m) <= 1
  {
    hide Pow2;
    if Copies(s, m) > 0 {
      var k: nat :| OfRound(m, k, |s.parties|);
      assert RoundInv(s, before, m.dst, k);
    }
  }

  lemma EnterInv(s: Sys, before: Counter, p: nat)
    requires Inv(s, before) && Enabled(s, Enter(p))
    ensures Inv(Do(s, Enter(p)), before)
  {
    hide Pow2;
    var t := Do(s, Enter(p));
    assert forall m :: Copies(t, m) == Copies(s, m);
    forall d: nat, k: nat | d < |t.parties| && Pow2(k) < |t.parties|
      ensures RoundInv(t, before, d, k)
    {
      assert RoundInv(s, before, d, k);
    }
  }

  /** Sending: the message did not exist before, whatever the round. */
  lemma SendInv(s: Sys, before: Counter, p: nat)
    requires Inv(s, before) && Enabled(s, Send(p))
    ensures Copies(s, Outgoing(s, p)) == 0
    ensures Inv(Do(s, Send(p)), before)
  {
    hide Pow2, Source, Target, RoundInv;
    var n, k0 := |s.parties|, s.parties[p].round;
    var t, q := Do(s, Send(p)), Target(p, k0, n);
    SameRound(p, k0, k0, n);
    assert RoundInv(s, before, q, k0);
    SendNew(s, before, p);
    assert OfRound(Message(p, q), k0, n);
    forall m | Copies(t, m) > 0
      ensures exists k: nat :: OfRound(m, k, n)
    {
      assert m == Message(p, q) || Copies(s, m) > 0;
    }
    forall d: nat, k: nat | d < n && Pow2(k) < n
      ensures RoundInv(t, before, d, k)
    {
      assert RoundInv(s, before, d, k);
      SendRound(s, before, p, d, k);
    }
  }

  lemma SendNew(s: Sys, before: Counter, p: nat)
    requires Enabled(s, Send(p)) && Outgoing(s, p).dst < |s.parties|
    requires RoundInv(s, before, Outgoing(s, p).dst, s.parties[p].round)
    ensures Copies(s, Outgoing(s, p)) == 0 && Count(s.sent, Outgoing(s, p)) == Count(before, Outgoing(s, p))
  {
    hide Pow2, Source, Target;
    SameRound(p, s.parties[p].round, s.parties[p].round, |s.parties|);
  }

  lemma SendRound(s: Sys, before: Counter, p: nat, d: nat, k: nat)
    requires Enabled(s, Send(p)) && d < |s.parties| && Pow2(k) < |s.parties| && RoundInv(s, before, d, k)
    requires Copies(s, Outgoing(s, p)) == 0 && Count(s.sent, Outgoing(s, p)) == Count(before, Outgoing(s, p))
    ensures RoundInv(Do(s, Send(p)), before, d, k)
  {
    hide Pow2, Source, Target;
    SameRound(p, s.parties[p].round, s.parties[p].round, |s.parties|);
    SameRound(d, s.parties[p].round, k, |s.parties|);
  }

  lemma PassThrottleInv(s: Sys, before: Counter, p: nat)
    requires Inv(s, before) && Enabled(s, PassThrottle(p))
    ensures Inv(Do(s, PassThrottle(p)), before)
  {
    hide Pow2, RoundInv;
    var t := Do(s, PassThrottle(p));
    assert forall m :: Copies(t, m) == Copies(s, m);
    forall d: nat, k: nat | d < |t.parties| && Pow2(k) < |t.parties|
      ensures RoundInv(t, before, d, k)
    {
      PassThrottleRound(s, before, p, d, k);
    }
  }

  lemma PassThrottleRound(s: Sys, before: Counter, p: nat, d: nat, k: nat)
    requires Enabled(s, PassThrottle(p)) && d < |s.parties| && Pow2(k) < |s.parties| && RoundInv(s, before, d, k)
    ensures RoundInv(Do(s, PassThrottle(p)), before, d, k)
  {
    hide Pow2, Target;
  }

  lemma DeliverInv(s: Sys, before: Counter, m: Message)
    requires Inv(s, before) && Enabled(s, Deliver(m))
    ensures m !in s.db
    ensures Inv(Do(s, Deliver(m)), before)
  {
    hide Pow2;
    OneCopy(s, before, m);
    var t := Do(s, Deliver(m));
    assert forall m' :: Copies(t, m') == Copies(s, m');
    forall d: nat, k: nat | d < |t.parties| && Pow2(k) < |t.parties|
      ensures RoundInv(t, before, d, k)
    {
      assert RoundInv(s, before, d, k);
    }
  }

  lemma RecvInv(s: Sys, before: Counter, p: nat)
    requires Inv(s, before) && Enabled(s, Recv(p))
    ensures Inv(Do(s, Recv(p)), before)
  {
    hide Pow2, Source, Target, RoundInv;
    var t := Do(s, Recv(p));
    assert RoundInv(s, before, p, s.parties[p].round);
    assert forall m :: Copies(t, m) <= Copies(s, m);
    forall d: nat, k: nat | d < |s.parties| && Pow2(k) < |s.parties|
      ensures RoundInv(t, before, d, k)
    {
      assert RoundInv(s, before, d, k);
      RecvRound(s, before, p, d, k);
    }
  }

  lemma RecvRound(s: Sys, before: Counter, p: nat, d: nat, k: nat)
    requires Enabled(s, Recv(p)) && d < |s.parties| && Pow2(k) < |s.parties| && RoundInv(s, before, d, k)
    requires RoundInv(s, before, p, s.parties[p].round)
    ensures RoundInv(Do(s, Recv(p)), before, d, k)
  {
    hide Pow2, Source, Target;
    SameRound(d, s.parties[p].round, k, |s.parties|);
    SameRound(p, k, s.parties[p].round, |s.parties|);
  }

  lemma SendAckInv(s: Sys, before: Counter, p: nat)
    requires Inv(s, before) && Enabled(s, SendAck(p))
    ensures Inv(Do(s, SendAck(p)), before)
  {
    hide Pow2, Source, Target, RoundInv;
    var t := Do(s, SendAck(p));
    assert forall m :: Copies(t, m) == Copies(s, m);
    forall d: nat, k: nat | d < |s.parties| && Pow2(k) < |s.parties|
      ensures RoundInv(t, before, d, k)
    {
      SendAckRound(s, before, p, d, k);
    }
  }

  lemma SendAckRound(s: Sys, before: Counter, p: nat, d: nat, k: nat)
    requires Enabled(s, SendAck(p)) && d < |s.parties| && Pow2(k) < |s.parties| && RoundInv(s, before, d, k)
    ensures RoundInv(Do(s, SendAck(p)), before, d, k)
  {
    hide Pow2, Source, Target;
    SameRound(d, s.parties[p].round, k, |s.parties|);
  }

  lemma DeliverAckInv(s: Sys, before: Counter, m: Message)
    requires Inv(s, before) && Enabled(s, DeliverAck(m))
    ensures Inv(Do(s, DeliverAck(m)), before)
  {
    hide Pow2, RoundInv;
    var t := Do(s, DeliverAck(m));
    assert forall m' :: Copies(t, m') == Copies(s, m');
    forall d: nat, k: nat | d < |t.parties| && Pow2(k) < |t.parties|
      ensures RoundInv(t, before, d, k)
    {
      DeliverAckRound(s, before, m, d, k);
    }
  }

  lemma DeliverAckRound(s: Sys, before: Counter, m: Message, d: nat, k: nat)
    requires Enabled(s, DeliverAck(m)) && d < |s.parties| && Pow2(k) < |s.parties| && RoundInv(s, before, d, k)
    ensures RoundInv(Do(s, DeliverAck(m)), before, d, k)
  {
    hide Pow2;
  }

  lemma StepInv(s: Sys, before: Counter, step: Step)
    requires Inv(s, before) && Enabled(s, step)
    ensures Inv(Do(s, step), before)
  {
    hide Inv, Enabled, Do;
    match step
    case Enter(p) => EnterInv(s, before, p);
    case Send(p) => SendInv(s, before, p);
    case PassThrottle(p) => PassThrottleInv(s, before, p);
    case Deliver(m) => DeliverInv(s, before, m);
    case Recv(p) => RecvInv(s, before, p);
    case SendAck(p) => SendAckInv(s, before, p);
    case DeliverAck(m) => DeliverAckInv(s, before, m);
  }

  /** The parties and their windows stay. */
  predicate SameParties(s: Sys, windows: seq<nat>) {
    |s.parties| == |windows| && forall p | 0 <= p < |windows| :: s.parties[p].window == windows[p]
  }

  lemma SameWorld(s: Sys, step: Step, windows: seq<nat>)
    requires Enabled(s, step) && SameParties(s, windows)
    ensures SameParties(Do(s, step), windows)
  {
  }

  lemma {:induction false} RunInv(windows: seq<nat>, before: Counter, states: seq<Sys>, steps: seq<Step>, i: nat)
    requires Run(windows, before, states, steps) && i < |states|
    ensures Inv(states[i], before) && SameParties(states[i], windows)
  {
    hide Inv, Enabled, Do;
    if i == 0 {
      WorldInv(windows, before);
    } else {
      RunInv(windows, before, states, steps, i - 1);
      StepInv(states[i - 1], before, steps[i - 1]);
      SameWorld(states[i - 1], steps[i - 1], windows);
    }
  }

  // ---- Safety ----

  /** A party past k rounds implies that its min(2^k, n) ring predecessors, itself included, have entered. */
  lemma {:induction false} PredecessorsEntered(s: Sys, before: Counter, p: nat, k: nat, distance: nat)
    requires Inv(s, before) && p < |s.parties| && !s.parties[p].stage.Outside? && k <= s.parties[p].round
    requires distance < Pow2(k) && distance < |s.parties|
    ensures !s.parties[Behind(p, distance, |s.parties|)].stage.Outside?
    decreases k
  {
    var n := |s.parties|;
    if k > 0 {
      var half := Pow2(k - 1);
      Pow2Monotone(k - 1, s.parties[p].round - 1);
      if distance < half {
        PredecessorsEntered(s, before, p, k - 1, distance);
      } else {
        var src := Source(p, k - 1, n);
        assert RoundInv(s, before, p, k - 1);
        assert HasSent(s.parties[src], k - 1);
        PredecessorsEntered(s, before, src, k - 1, distance - half);
        assert Behind(src, distance - half, n) == Behind(p, distance, n);
      }
    }
  }

  /** Safety: in every run no party leaves the barrier before all have entered it. */
  lemma NobodyLeavesEarly(windows: seq<nat>, before: Counter, states: seq<Sys>, steps: seq<Step>, i: nat, p: nat, q: nat)
    requires Run(windows, before, states, steps) && i < |states| && Left(states[i], p) && q < |windows|
    ensures |states[i].parties| == |windows| && !states[i].parties[q].stage.Outside?
  {
    hide Run, Pow2;
    RunInv(windows, before, states, steps, i);
    var distance := if q <= p then p - q else p + |windows| - q;
    PredecessorsEntered(states[i], before, p, states[i].parties[p].round, distance);
  }

  /** In every run a message is sent only when no copy of it exists, and delivered only when its key
      is free, so that no message is ever dropped as a duplicate. */
  lemma KeyNeverAmbiguous(windows: seq<nat>, before: Counter, states: seq<Sys>, steps: seq<Step>, i: nat)
    requires Run(windows, before, states, steps) && i < |steps|
    ensures forall m :: Copies(states[i], m) <= 1
    ensures steps[i].Send? ==>
              InLoop(states[i], steps[i].rank) && Copies(states[i], Outgoing(states[i], steps[i].rank)) == 0
    ensures steps[i].Deliver? ==> steps[i].message !in states[i].db
  {
    RunInv(windows, before, states, steps, i);
    assert Enabled(states[i], steps[i]);
    hide Run, Inv, Pow2;
    forall m
      ensures Copies(states[i], m) <= 1
    {
      OneCopy(states[i], before, m);
    }
    match steps[i]
    case Send(p) => SendInv(states[i], before, p);
    case Deliver(m) => DeliverInv(states[i], before, m);
    case _ =>
  }

  // ---- Progress ----

  /** Nobody can do anything, and somebody has not left. */
  ghost predicate Stuck(s: Sys) {
    (forall step :: !Enabled(s, step)) && exists p :: 0 <= p < |s.parties| && !Left(s, p)
  }

  /** What can stop the barrier: a set of parties whose window is 1 and whose targets of some round
      are among them. Each of them waits for the ack of the next before it receives. */
  predicate Blocking(windows: seq<nat>, k: nat, ring: set<nat>) {
    && ring != {} && Pow2(k) < |windows|
    && forall p | p in ring :: p < |windows| && windows[p] == 1 && Target(p, k, |windows|) in ring
  }

  /** A party that is least advanced. */
  lemma {:induction false} LeastRound(s: Sys, m: nat) returns (p: nat)
    requires 0 < m <= |s.parties|
    ensures p < m && forall q | 0 <= q < m :: s.parties[p].round <= s.parties[q].round
  {
    if m == 1 {
      p := 0;
    } else {
      p := LeastRound(s, m - 1);
      if s.parties[m - 1].round < s.parties[p].round {
        p := m - 1;
      }
    }
  }

  /** When nothing can be done, a least advanced party waits for the throttle: its source has sent. */
  lemma LeastIsThrottled(s: Sys, before: Counter, p: nat, k: nat)
    requires Inv(s, before) && (forall step :: !Enabled(s, step))
    requires p < |s.parties| && s.parties[p].round == k && Pow2(k) < |s.parties|
    requires forall q | 0 <= q < |s.parties| :: k <= s.parties[q].round
    ensures s.parties[p].stage.Throttled?
  {
    hide Pow2, Source, Target, Behind;
    SameRound(p, k, k, |s.parties|);
    var src := Source(p, k, |s.parties|);
    assert RoundInv(s, before, p, k);
    assert !Enabled(s, Enter(p)) && !Enabled(s, Send(p)) && !Enabled(s, SendAck(p));
    assert !Enabled(s, Enter(src)) && !Enabled(s, Send(src));
    assert !Enabled(s, Recv(p)) && !Enabled(s, Deliver(Message(src, p)));
  }

  /** ... and what it waits for is an ack of a party as far behind, under a window of 1. */
  lemma ThrottledWaits(s: Sys, before: Counter, p: nat, k: nat)
    requires Inv(s, before) && (forall step :: !Enabled(s, step))
    requires p < |s.parties| && s.parties[p].round == k && Pow2(k) < |s.parties| && s.parties[p].stage.Throttled?
    ensures s.parties[p].window == 1
    ensures Target(p, k, |s.parties|) < |s.parties| && s.parties[Target(p, k, |s.parties|)].round <= k
  {
    hide Pow2, Source, Target, Behind;
    SameRound(p, k, k, |s.parties|);
    var q := Target(p, k, |s.parties|);
    assert RoundInv(s, before, q, k);
    assert !Enabled(s, PassThrottle(p)) && !Enabled(s, DeliverAck(Message(p, q)));
  }

  /** A stuck state shows a blocking set: all least advanced parties. */
  lemma StuckShowsBlocking(s: Sys, before: Counter, windows: seq<nat>) returns (k: nat, ring: set<nat>)
    requires Inv(s, before) && SameParties(s, windows) && Stuck(s)
    ensures Blocking(windows, k, ring)
  {
    hide Pow2, Target, Inv;
    var n := |s.parties|;
    var straggler :| 0 <= straggler < n && !Left(s, straggler);
    var least := LeastRound(s, n);
    k := s.parties[least].round;
    assert !Enabled(s, Enter(straggler));
    LoopRound(s, before, straggler, k);
    ring := set p | p in Upto(n) && s.parties[p].round == k;
    assert least in ring;
    forall p | p in ring
      ensures p < |windows| && windows[p] == 1 && Target(p, k, |windows|) in ring
    {
      LeastIsThrottled(s, before, p, k);
      ThrottledWaits(s, before, p, k);
    }
  }

  lemma LoopRound(s: Sys, before: Counter, p: nat, k: nat)
    requires Inv(s, before) && p < |s.parties| && !Left(s, p) && !s.parties[p].stage.Outside? && k <= s.parties[p].round
    ensures Pow2(k) < |s.parties|
  {
    Pow2Monotone(k, s.parties[p].round);
  }

  /** Nobody of a blocking set ever gets past its throttle in that round. */
  lemma {:induction false} NobodyPasses(windows: seq<nat>, before: Counter, states: seq<Sys>, steps: seq<Step>, i: nat,
                                        k: nat, ring: set<nat>, p: nat)
    requires Run(windows, before, states, steps) && i < |states| && Blocking(windows, k, ring) && p in ring
    ensures p < |states[i].parties| && !HasPassed(states[i].parties[p], k)
  {
    hide Do, Enabled, Inv, Pow2, Target;
    RunInv(windows, before, states, steps, i);
    if i > 0 {
      var s, q := states[i - 1], Target(p, k, |windows|);
      RunInv(windows, before, states, steps, i - 1);
      NobodyPasses(windows, before, states, steps, i - 1, k, ring, p);
      NobodyPasses(windows, before, states, steps, i - 1, k, ring, q);
      StaysBehind(s, before, steps[i - 1], p, k);
    }
  }

  /** Passing takes the target's ack, which the target sends only after it has passed itself. */
  lemma StaysBehind(s: Sys, before: Counter, step: Step, p: nat, k: nat)
    requires Inv(s, before) && Enabled(s, step) && p < |s.parties| && Pow2(k) < |s.parties|
    requires s.parties[p].window == 1 && !HasPassed(s.parties[p], k)
    requires Target(p, k, |s.parties|) < |s.parties| && !HasPassed(s.parties[Target(p, k, |s.parties|)], k)
    ensures !HasPassed(Do(s, step).parties[p], k)
  {
    hide Pow2, Source, Target;
    SameRound(p, k, k, |s.parties|);
    assert RoundInv(s, before, Target(p, k, |s.parties|), k);
  }

  // ---- Every run ends ----

  /** ceil(log2(n)), the number of rounds. */
  function Rounds(n: nat): nat {
    if n <= 1 then 0 else FloorLog2(n - 1) + 1
  }

  lemma RoundsMeaning(k: nat, n: nat)
    requires n > 0 && Pow2(k) < n
    ensures k < Rounds(n)
  {
    FloorLog2Meaning(n - 1);
    if Rounds(n) <= k {
      Pow2Monotone(Rounds(n), k);
    }
  }

  /** The steps a party still causes in a barrier of r rounds: six a round, with the two deliveries. */
  function StepsLeft(p: Party, r: nat): int {
    6 * (r - p.round) + match p.stage
                        case Outside => 1
                        case Sending => 0
                        case Throttled(_) => -2
                        case Receiving => -3
                        case Owing => -4
  }

  function AllStepsLeft(parties: seq<Party>, r: nat): int {
    Total((p: Party) => StepsLeft(p, r), parties)
  }

  function Weight(s: Sys): int {
    AllStepsLeft(s.parties, Rounds(|s.parties|)) + |s.inFlight| + |s.acks|
  }

  lemma NoneNegative(parties: seq<Party>, n: nat)
    requires n > 0 && forall p | 0 <= p < |parties| :: PartyInv(parties[p], n)
    ensures AllStepsLeft(parties, Rounds(n)) >= 0
  {
    hide Pow2, Rounds, Total;
    forall p | 0 <= p < |parties|
      ensures StepsLeft(parties[p], Rounds(n)) >= 0
    {
      assert PartyInv(parties[p], n);
      if parties[p].round > 0 {
        RoundsMeaning(parties[p].round - 1, n);
      }
      if !parties[p].stage.Outside? && !parties[p].stage.Sending? {
        RoundsMeaning(parties[p].round, n);
      }
    }
    TotalNat((p: Party) => StepsLeft(p, Rounds(n)), parties);
  }

  lemma PartyWeight(s: Sys, t: Sys, p: nat)
    requires p < |s.parties| == |t.parties| && t.parties == s.parties[p := t.parties[p]]
    ensures var r := Rounds(|s.parties|);
            Weight(t) - Weight(s) ==
            StepsLeft(t.parties[p], r) - StepsLeft(s.parties[p], r) + |t.inFlight| - |s.inFlight| + |t.acks| - |s.acks|
  {
    hide Rounds, StepsLeft, Total;
    var r := Rounds(|s.parties|);
    TotalUpdate((q: Party) => StepsLeft(q, r), s.parties, p, t.parties[p]);
  }

  lemma DeliveryWeight(s: Sys, before: Counter, m: Message)
    requires Inv(s, before)
    ensures Enabled(s, Deliver(m)) ==> Weight(Do(s, Deliver(m))) < Weight(s)
    ensures Enabled(s, DeliverAck(m)) ==> Weight(Do(s, DeliverAck(m))) < Weight(s)
  {
    hide Inv, Pow2, Rounds, AllStepsLeft;
    if Enabled(s, Deliver(m)) {
      DeliverInv(s, before, m);
      assert |s.inFlight - multiset{m}| == |s.inFlight| - 1;
    }
    if Enabled(s, DeliverAck(m)) {
      assert |s.acks - multiset{m}| == |s.acks| - 1;
    }
  }

  lemma WeightDecreases(s: Sys, before: Counter, step: Step)
    requires Inv(s, before) && Enabled(s, step)
    ensures Weight(Do(s, step)) < Weight(s)
  {
    hide Inv, Weight, Pow2, Source, Target, Rounds;
    match step
    case Enter(p) => PartyWeight(s, Do(s, step), p);
    case Send(p) => PartyWeight(s, Do(s, step), p);
    case PassThrottle(p) => PartyWeight(s, Do(s, step), p);
    case Deliver(m) => DeliveryWeight(s, before, m);
    case Recv(p) => PartyWeight(s, Do(s, step), p);
    case SendAck(p) => PartyWeight(s, Do(s, step), p);
    case DeliverAck(m) => DeliveryWeight(s, before, m);
  }

  lemma WeightNat(s: Sys, before: Counter)
    requires Inv(s, before)
    ensures Weight(s) >= 0
  {
    hide Rounds, RoundInv, Pow2;
    if |s.parties| > 0 {
      NoneNegative(s.parties, |s.parties|);
    }
  }

  /** Every run ends: n parties take at most n * (6 ceil(log2(n)) + 1) steps. */
  lemma {:induction false} RunsAreFinite(windows: seq<nat>, before: Counter, states: seq<Sys>, steps: seq<Step>, i: nat)
    requires Run(windows, before, states, steps) && i < |states|
    ensures i + Weight(states[i]) <= |windows| * (6 * Rounds(|windows|) + 1)
    ensures i <= |windows| * (6 * Rounds(|windows|) + 1)
  {
    hide Do, Enabled, Inv, Weight, Rounds;
    RunInv(windows, before, states, steps, i);
    WeightNat(states[i], before);
    if i == 0 {
      WorldWeight(windows, before);
    } else {
      RunsAreFinite(windows, before, states, steps, i - 1);
      RunInv(windows, before, states, steps, i - 1);
      WeightDecreases(states[i - 1], before, steps[i - 1]);
    }
  }

  lemma WorldWeight(windows: seq<nat>, before: Counter)
    ensures Weight(World(windows, before)) == |windows| * (6 * Rounds(|windows|) + 1)
  {
    hide Rounds, Total;
    var r := Rounds(|windows|);
    TotalConstant((p: Party) => StepsLeft(p, r), World(windows, before).parties, 6 * r + 1);
  }

  /** Every run can be continued until nothing can be done any more. */
  lemma {:induction false} Finish(windows: seq<nat>, before: Counter, states: seq<Sys>, steps: seq<Step>, left: nat)
    returns (states': seq<Sys>, steps': seq<Step>)
    requires Run(windows, before, states, steps) && left == |windows| * (6 * Rounds(|windows|) + 1) - |steps|
    ensures Run(windows, before, states', steps') && forall step :: !Enabled(states'[|steps'|], step)
    decreases left
  {
    hide Do, Enabled, Inv, Rounds;
    if step :| Enabled(states[|steps|], step) {
      states', steps' := states + [Do(states[|steps|], step)], steps + [step];
      RunsAreFinite(windows, before, states', steps', |steps'|);
      states', steps' := Finish(windows, before, states', steps', left - 1);
    } else {
      states', steps' := states, steps;
    }
  }

  // ---- Exactly when the barrier gets stuck ----

  ghost predicate EndsStuck(states: seq<Sys>) {
    |states| > 0 && Stuck(states[|states| - 1])
  }

  ghost predicate GetsStuck(windows: seq<nat>, before: Counter) {
    exists states, steps :: Run(windows, before, states, steps) && EndsStuck(states)
  }

  /** Some run of the barrier gets stuck exactly if there is a blocking set. */
  lemma StuckExactly(windows: seq<nat>, before: Counter)
    ensures GetsStuck(windows, before) <==> exists k, ring :: Blocking(windows, k, ring)
  {
    hide Run, EndsStuck, Blocking;
    if states, steps :| Run(windows, before, states, steps) && EndsStuck(states) {
      var k, ring := StuckRunShowsBlocking(windows, before, states, steps);
    }
    if k, ring :| Blocking(windows, k, ring) {
      BlockingSticks(windows, before, k, ring);
    }
  }

  lemma StuckRunShowsBlocking(windows: seq<nat>, before: Counter, states: seq<Sys>, steps: seq<Step>)
    returns (k: nat, ring: set<nat>)
    requires Run(windows, before, states, steps) && EndsStuck(states)
    ensures Blocking(windows, k, ring)
  {
    hide Stuck, Blocking, Inv;
    RunInv(windows, before, states, steps, |steps|);
    k, ring := StuckShowsBlocking(states[|steps|], before, windows);
  }

  lemma BlockingSticks(windows: seq<nat>, before: Counter, k: nat, ring: set<nat>)
    requires Blocking(windows, k, ring)
    ensures GetsStuck(windows, before)
  {
    hide Enabled, Do, Inv, Target, Pow2, Rounds;
    var states, steps := Finish(windows, before, [World(windows, before)], [], |windows| * (6 * Rounds(|windows|) + 1));
    var s := states[|steps|];
    var p :| p in ring;
    RunInv(windows, before, states, steps, |steps|);
    NobodyPasses(windows, before, states, steps, |steps|, k, ring, p);
    NotLeft(s, p, k);
    assert EndsStuck(states);
  }

  lemma NotLeft(s: Sys, p: nat, k: nat)
    requires p < |s.parties| && !HasPassed(s.parties[p], k) && Pow2(k) < |s.parties|
    ensures !Left(s, p)
  {
    Pow2Monotone(s.parties[p].round, k);
  }

  /** Progress: in every state of every run in which somebody has not left, some step can be taken,
      if there is no blocking set; so that, runs being finite, everybody leaves. */
  lemma NeverStuck(windows: seq<nat>, before: Counter, states: seq<Sys>, steps: seq<Step>, i: nat, straggler: nat)
    requires Run(windows, before, states, steps) && i < |states| && straggler < |windows| && !Left(states[i], straggler)
    requires forall k, ring :: !Blocking(windows, k, ring)
    ensures exists step :: Enabled(states[i], step)
  {
    hide Run, Blocking, Inv, Enabled;
    RunInv(windows, before, states, steps, i);
    if !exists step :: Enabled(states[i], step) {
      var k, ring := StuckShowsBlocking(states[i], before, windows);
    }
  }

  /** With one window for all of at least two parties: some run gets stuck exactly if the window is 1. */
  lemma OneWindow(windows: seq<nat>, window: nat, before: Counter)
    requires |windows| >= 2 && forall p | 0 <= p < |windows| :: windows[p] == window
    ensures GetsStuck(windows, before) <==> window == 1
  {
    hide GetsStuck;
    StuckExactly(windows, before);
    if window == 1 {
      assert Blocking(windows, 0, Upto(|windows|));
    }
    if k, ring :| Blocking(windows, k, ring) {
      var p := BlockingMember(windows, k, ring);
    }
  }

  lemma BlockingMember(windows: seq<nat>, k: nat, ring: set<nat>) returns (p: nat)
    requires Blocking(windows, k, ring)
    ensures p < |windows| && windows[p] == 1
  {
    p :| p in ring;
  }

  /** ... and with a window of 1 no party gets past its first message in any run. */
  lemma WindowOne(windows: seq<nat>, before: Counter, states: seq<Sys>, steps: seq<Step>, i: nat, p: nat)
    requires |windows| >= 2 && forall q | 0 <= q < |windows| :: windows[q] == 1
    requires Run(windows, before, states, steps) && i < |states| && p < |windows|
    ensures p < |states[i].parties| && !HasPassed(states[i].parties[p], 0)
  {
    hide Run;
    assert Blocking(windows, 0, Upto(|windows|));
    NobodyPasses(windows, before, states, steps, i, 0, Upto(|windows|), p);
  }
}
