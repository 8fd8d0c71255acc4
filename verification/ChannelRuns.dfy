/** Two ends of a link (yasl/link/transport/channel.cc) as a step system: senders, readers, handler
    threads and `WaitLinkTaskFinish` interleave in any way over a transport that delivers everything
    handed to it exactly once, in any order. Waits do not time out. */
module ChannelRuns {
  import opened Wrappers
  import opened Channel

  /** What one end has handed to its transport and the other has not handled yet. */
  datatype Wire = Wire(normals: multiset<(string, Buffer)>, acks: nat, fins: multiset<nat>)

  const NOTHING := Wire(multiset{}, 0, multiset{})

  /** How far `WaitLinkTaskFinish` has come. */
  datatype Phase = Running | Stopped | FinSent | GotFin | GotMessages | AsyncDone | Returned

  function Rank(p: Phase): nat {
    match p
    case Running => 0
    case Stopped => 1
    case FinSent => 2
    case GotFin => 3
    case GotMessages => 4
    case AsyncDone => 5
    case Returned => 6
  }

  /** One end: its fields, its side of the wire, and where its threads are. `inSend` senders have
      handed their message over and not counted it, the counts in `waits` wait for the throttle,
      `owed` readers have taken a message and not acked it, `running` requests have no reply yet. */
  datatype End = End(
    st: State,
    wire: Wire,
    phase: Phase,
    handed: nat,
    inSend: nat,
    waits: set<nat>,
    owed: nat,
    running: nat)

  /** The link as seen from one of its ends. */
  datatype Link = Link(me: End, peer: End)

  function Swap(w: Link): Link {
    Link(w.peer, w.me)
  }

  function InFlight(x: End): nat {
    |x.wire.normals| + x.wire.acks + |x.wire.fins|
  }

  function Start(window: nat): End {
    End(Fresh(window), NOTHING, Running, 0, 0, {}, 0, 0)
  }

  datatype Step =
    | HandOver(key: string, value: Buffer)
    | Count
    | PassThrottle(waitCount: nat)
    | TakeKey(key: string)
    | AckTaken
    | DeliverNormal(message: (string, Buffer))
    | DeliverAck
    | DeliverFin(sentCount: nat)
    | Reply
    | StopReceiving
    | SendFin
    | SeeFin
    | SeeMessages
    | SeeReplies
    | SeeAcks

  /** Whether `me` can take the step; at most `threads` of its threads send at a time, and none is
      sending when it calls `WaitLinkTaskFinish`. */
  predicate Enabled(w: Link, step: Step, threads: nat) {
    var x := w.me;
    match step
    case HandOver(key, _) => x.phase.Running? && x.inSend + |x.waits| < threads && key != ACK_KEY && key != FIN_KEY
    case Count => x.inSend > 0
    case PassThrottle(c) => c in x.waits && PassesThrottle(x.st, c)
    case TakeKey(key) => key in x.st.msgDb
    case AckTaken => x.owed > 0
    case DeliverNormal(m) => m in w.peer.wire.normals
    case DeliverAck => w.peer.wire.acks > 0
    case DeliverFin(n) => n in w.peer.wire.fins
    case Reply => x.running > InFlight(x)
    case StopReceiving => x.phase.Running? && x.inSend == 0 && x.waits == {}
    case SendFin => x.phase.Stopped?
    case SeeFin => x.phase.FinSent? && x.st.receivedFin
    case SeeMessages => x.phase.GotFin? && FlyingMsgsArrived(x.st)
    case SeeReplies => x.phase.GotMessages? && x.running == 0
    case SeeAcks => x.phase.AsyncDone? && FlyingAcksArrived(x.st)
  }

  function WithAcks(x: End, n: nat): End {
    x.(wire := x.wire.(acks := x.wire.acks + n), running := x.running + n)
  }

  function Do(w: Link, step: Step, threads: nat): Link
    requires Enabled(w, step, threads)
  {
    var x, y := w.me, w.peer;
    match step
    case HandOver(key, value) =>
      Link(x.(wire := x.wire.(normals := x.wire.normals + multiset{(key, value)}),
           running := x.running + 1, handed := x.handed + 1, inSend := x.inSend + 1), y)
    case Count =>
      var t := CountSent(x.st);
      Link(x.(st := t, inSend := x.inSend - 1, waits := x.waits + {t.sentMsgCount}), y)
    case PassThrottle(c) => Link(x.(waits := x.waits - {c}), y)
    case TakeKey(key) => Link(x.(st := Take(x.st, key), owed := x.owed + 1), y)
    case AckTaken => Link(WithAcks(x.(owed := x.owed - 1), 1), y)
    case DeliverNormal(m) =>
      var (t, acks) := OnNormal(x.st, m.0, m.1);
      Link(WithAcks(x.(st := t), acks), y.(wire := y.wire.(normals := y.wire.normals - multiset{m})))
    case DeliverAck => Link(x.(st := OnAck(x.st)), y.(wire := y.wire.(acks := y.wire.acks - 1)))
    case DeliverFin(n) => Link(x.(st := OnFin(x.st, n)), y.(wire := y.wire.(fins := y.wire.fins - multiset{n})))
    case Reply => Link(x.(running := x.running - 1), y)
    case StopReceiving =>
      var (t, acks) := Stop(x.st);
      Link(WithAcks(x.(st := t, phase := Stopped), acks), y)
    case SendFin =>
      Link(x.(wire := x.wire.(fins := x.wire.fins + multiset{x.st.sentMsgCount}),
           running := x.running + 1, phase := FinSent), y)
    case SeeFin => Link(x.(phase := GotFin), y)
    case SeeMessages => Link(x.(phase := GotMessages), y)
    case SeeReplies => Link(x.(phase := AsyncDone), y)
    case SeeAcks => Link(x.(phase := Returned), y)
  }

  /** A step of either end. */
  datatype Event = Event(mine: bool, step: Step)

  function Turn(w: Link, mine: bool): Link {
    if mine then w else Swap(w)
  }

  predicate CanFollow(w: Link, e: Event, threads: nat) {
    Enabled(Turn(w, e.mine), e.step, threads)
  }

  function Next(w: Link, e: Event, threads: nat): Link
    requires CanFollow(w, e, threads)
  {
    Turn(Do(Turn(w, e.mine), e.step, threads), e.mine)
  }

  /** The states a sequence of events leads through. */
  predicate Run(window: nat, threads: nat, states: seq<Link>, events: seq<Event>) {
    && |states| == |events| + 1 && states[0] == Link(Start(window), Start(window))
    && forall i | 0 <= i < |events| ::
         CanFollow(states[i], events[i], threads) && states[i + 1] == Next(states[i], events[i], threads)
  }

  // ---- What every run keeps ----

  /** Every message handed over at x is on the wire or was received at y; and every one received at
      y was acked to x, has its ack on the wire, is owed one by a reader, or is still unread. */
  predicate Conserved(x: End, y: End) {
    && x.handed == |x.wire.normals| + y.st.receivedMsgCount
    && y.st.receivedMsgCount == x.st.ackMsgCount + y.wire.acks + y.owed + |y.st.msgDb|
  }

  /** Messages are handed over before they are counted; from `WaitLinkTaskFinish` on nobody sends
      and nothing is kept for a reader. */
  predicate Counted(x: End) {
    && x.st.sentMsgCount + x.inSend == x.handed
    && x.st.waitingFinish == !x.phase.Running?
    && (!x.phase.Running? ==> x.inSend == 0 && x.waits == {} && x.st.msgDb == map[])
    && InFlight(x) <= x.running
  }

  /** x's one fin, with the number of messages x sent: not sent, on the wire, or received. */
  predicate FinInv(x: End, y: End) {
    if Rank(x.phase) < Rank(FinSent) then
      x.wire.fins == multiset{} && !y.st.receivedFin
    else if y.st.receivedFin then
      x.wire.fins == multiset{} && y.st.peerSentMsgCount == x.st.sentMsgCount
    else
      x.wire.fins == multiset{x.st.sentMsgCount}
  }

  /** What the waits already passed have seen still holds. */
  predicate PhaseInv(x: End) {
    && (Rank(x.phase) >= Rank(GotFin) ==> x.st.receivedFin)
    && (Rank(x.phase) >= Rank(GotMessages) ==> FlyingMsgsArrived(x.st))
    && (x.phase.Returned? ==> FlyingAcksArrived(x.st))
  }

  /** Every count either still waits for the throttle or has passed it. */
  predicate ThrottleInv(x: End, window: nat, threads: nat) {
    && x.st.throttleWindowSize == window
    && x.inSend + |x.waits| <= threads
    && (forall c | c in x.waits :: 1 <= c <= x.st.sentMsgCount)
    && (forall c | 1 <= c <= x.st.sentMsgCount :: c in x.waits || PassesThrottle(x.st, c))
  }

  predicate HalfInv(x: End, y: End, window: nat, threads: nat) {
    Conserved(x, y) && Counted(x) && FinInv(x, y) && PhaseInv(x) && ThrottleInv(x, window, threads)
  }

  predicate Inv(w: Link, window: nat, threads: nat) {
    HalfInv(w.me, w.peer, window, threads) && HalfInv(w.peer, w.me, window, threads)
  }

  lemma RemoveKey<K, V>(m: map<K, V>, key: K)
    requires key in m
    ensures |m - {key}| == |m| - 1
  {
    assert (m - {key}).Keys == m.Keys - {key};
    assert |m - {key}| == |(m - {key}).Keys| && |m| == |m.Keys|;
  }

  lemma AddKey<K, V>(m: map<K, V>, key: K, value: V)
    requires key !in m
    ensures |m[key := value]| == |m| + 1
  {
    assert m[key := value].Keys == m.Keys + {key};
    assert |m[key := value]| == |m[key := value].Keys| && |m| == |m.Keys|;
  }

  lemma ConservedStep(w: Link, step: Step, threads: nat)
    requires Conserved(w.me, w.peer) && Conserved(w.peer, w.me) && Enabled(w, step, threads)
    ensures Conserved(Do(w, step, threads).me, Do(w, step, threads).peer)
    ensures Conserved(Do(w, step, threads).peer, Do(w, step, threads).me)
  {
    match step
    case TakeKey(key) => RemoveKey(w.me.st.msgDb, key);
    case DeliverNormal(m) => if m.0 !in w.me.st.msgDb { AddKey(w.me.st.msgDb, m.0, m.1); }
    case _ =>
  }

  lemma OwnCounted(w: Link, step: Step, threads: nat)
    requires Counted(w.me) && Enabled(w, step, threads)
    ensures Counted(Do(w, step, threads).me)
  {
    hide PassesThrottle, FlyingMsgsArrived, FlyingAcksArrived;
    match step
    case HandOver(key, value) =>
      assert |w.me.wire.normals + multiset{(key, value)}| == |w.me.wire.normals| + 1;
    case SendFin => assert |w.me.wire.fins + multiset{w.me.st.sentMsgCount}| == |w.me.wire.fins| + 1;
    case _ =>
  }

  lemma PeerCounted(w: Link, step: Step, threads: nat)
    requires Counted(w.peer) && Enabled(w, step, threads)
    ensures Counted(Do(w, step, threads).peer)
  {
    hide PassesThrottle, FlyingMsgsArrived, FlyingAcksArrived;
    match step
    case DeliverNormal(m) => assert |w.peer.wire.normals - multiset{m}| == |w.peer.wire.normals| - 1;
    case DeliverFin(n) => assert |w.peer.wire.fins - multiset{n}| == |w.peer.wire.fins| - 1;
    case _ =>
  }

  lemma OwnFinStep(w: Link, step: Step, threads: nat)
    requires Counted(w.me) && FinInv(w.me, w.peer) && Enabled(w, step, threads)
    ensures FinInv(Do(w, step, threads).me, Do(w, step, threads).peer)
  {
  }

  lemma PeerFinStep(w: Link, step: Step, threads: nat)
    requires FinInv(w.peer, w.me) && Enabled(w, step, threads)
    ensures FinInv(Do(w, step, threads).peer, Do(w, step, threads).me)
  {
    if step.DeliverFin? {
      var n := w.peer.st.sentMsgCount;
      assert step.sentCount == n && multiset{n} - multiset{n} == multiset{};
    }
  }

  lemma PhaseStep(w: Link, step: Step, threads: nat)
    requires Counted(w.me) && PhaseInv(w.me) && PhaseInv(w.peer) && Enabled(w, step, threads)
    ensures PhaseInv(Do(w, step, threads).me) && PhaseInv(Do(w, step, threads).peer)
  {
  }

  lemma ThrottleStep(w: Link, step: Step, window: nat, threads: nat)
    requires Counted(w.me) && ThrottleInv(w.me, window, threads) && ThrottleInv(w.peer, window, threads)
    requires Enabled(w, step, threads)
    ensures ThrottleInv(Do(w, step, threads).me, window, threads)
    ensures ThrottleInv(Do(w, step, threads).peer, window, threads)
  {
  }

  lemma StepInv(w: Link, step: Step, window: nat, threads: nat)
    requires Inv(w, window, threads) && Enabled(w, step, threads)
    ensures Inv(Do(w, step, threads), window, threads)
  {
    hide Conserved, Counted, FinInv, PhaseInv, ThrottleInv, Enabled, Do;
    ConservedStep(w, step, threads);
    OwnCounted(w, step, threads);
    PeerCounted(w, step, threads);
    OwnFinStep(w, step, threads);
    PeerFinStep(w, step, threads);
    PhaseStep(w, step, threads);
    ThrottleStep(w, step, window, threads);
  }

  lemma {:induction false} RunInv(window: nat, threads: nat, states: seq<Link>, events: seq<Event>, i: nat)
    requires Run(window, threads, states, events) && i < |states|
    ensures Inv(states[i], window, threads)
  {
    hide Enabled, Do, HalfInv;
    if i == 0 {
      StartInv(window, threads);
    } else {
      RunInv(window, threads, states, events, i - 1);
      StepInv(Turn(states[i - 1], events[i - 1].mine), events[i - 1].step, window, threads);
    }
  }

  lemma StartInv(window: nat, threads: nat)
    ensures HalfInv(Start(window), Start(window), window, threads)
  {
  }

  /** One more step, to a state that is spelled out. */
  lemma Then(window: nat, threads: nat, states: seq<Link>, events: seq<Event>, e: Event, v: Link)
    returns (states': seq<Link>, events': seq<Event>)
    requires Run(window, threads, states, events)
    requires CanFollow(states[|events|], e, threads) && Next(states[|events|], e, threads) == v
    ensures Run(window, threads, states', events') && states'[|events'|] == v
  {
    hide CanFollow, Next;
    states', events' := states + [v], events + [e];
  }

  lemma RunOfNothing(window: nat, threads: nat) returns (states: seq<Link>, events: seq<Event>)
    ensures Run(window, threads, states, events) && states[|events|] == Link(Start(window), Start(window))
  {
    states, events := [Link(Start(window), Start(window))], [];
  }

  // ---- Acks and the throttle ----

  /** In every state of every run, acks sent, acks owed by a `Recv` in progress and messages still
      unread make up the messages received; acks sent are those on the wire and those counted. */
  lemma AckConservation(window: nat, threads: nat, states: seq<Link>, events: seq<Event>, i: nat)
    requires Run(window, threads, states, events) && i < |states|
    ensures Conserved(states[i].me, states[i].peer) && Conserved(states[i].peer, states[i].me)
  {
    hide Run;
    RunInv(window, threads, states, events, i);
  }

  lemma {:induction false} CountsBelow(n: nat, waits: set<nat>, bound: nat)
    requires forall c | 1 <= c <= n :: c in waits || c <= bound
    ensures n <= bound + |waits|
  {
    if n > bound {
      CountsBelow(n - 1, waits - {n}, bound);
    }
  }

  /** How far an end may run ahead of the acks. */
  predicate Ahead(x: End, bound: nat) {
    x.handed <= x.st.ackMsgCount + bound
  }

  /** With a fixed window w >= 1 and at most k threads sending at a time, at most w - 1 + k messages
      handed over are unacked, at either end and in every state of every run. */
  lemma ThrottleBound(window: nat, threads: nat, states: seq<Link>, events: seq<Event>, i: nat, mine: bool)
    requires Run(window, threads, states, events) && i < |states| && window >= 1
    ensures Ahead(Turn(states[i], mine).me, window - 1 + threads)
  {
    hide Run;
    RunInv(window, threads, states, events, i);
    var x := Turn(states[i], mine).me;
    CountsBelow(x.st.sentMsgCount, x.waits, x.st.ackMsgCount + window - 1);
  }

  /** j copies of one message. */
  function Pile(j: nat): multiset<(string, Buffer)> {
    var none: multiset<(string, Buffer)> := multiset{};
    none[("k", []) := j]
  }

  /** An end with j messages on the wire, none acked: `inSend` of them not counted yet. */
  function Filled(window: nat, j: nat, inSend: nat): Link
    requires inSend <= j
  {
    Link(Start(window).(st := Fresh(window).(sentMsgCount := j - inSend), handed := j, running := j, inSend := inSend,
         wire := NOTHING.(normals := Pile(j))), Start(window))
  }

  /** One thread fills the window but for one. */
  lemma {:induction false} FillWindow(window: nat, threads: nat, j: nat) returns (states: seq<Link>, events: seq<Event>)
    requires threads >= 1 && j < window
    ensures Run(window, threads, states, events) && states[|events|] == Filled(window, j, 0)
  {
    hide Run;
    if j == 0 {
      states, events := RunOfNothing(window, threads);
      assert Pile(0) == multiset{};
    } else {
      states, events := FillWindow(window, threads, j - 1);
      var w := Filled(window, j, 1);
      FilledMore(j - 1);
      states, events := Then(window, threads, states, events, Event(true, HandOver("k", [])), w);
      var v := Filled(window, j, 0);
      states, events := Then(window, threads, states, events, Event(true, Count), v.(me := v.me.(waits := {j})));
      states, events := Then(window, threads, states, events, Event(true, PassThrottle(j)), v);
    }
  }

  lemma FilledMore(j: nat)
    ensures Pile(j) + multiset{("k", [])} == Pile(j + 1)
  {
  }

  /** Then every thread hands over one more. */
  lemma {:induction false} HandOverMore(window: nat, threads: nat, i: nat) returns (states: seq<Link>, events: seq<Event>)
    requires threads >= 1 && window >= 1 && i <= threads
    ensures Run(window, threads, states, events) && states[|events|] == Filled(window, window - 1 + i, i)
  {
    hide Run;
    if i == 0 {
      states, events := FillWindow(window, threads, window - 1);
    } else {
      states, events := HandOverMore(window, threads, i - 1);
      FilledMore(window - 1 + i - 1);
      states, events := Then(window, threads, states, events, Event(true, HandOver("k", [])), Filled(window, window - 1 + i, i));
    }
  }

  /** The bound is reached, whatever the window and the number of threads. */
  lemma ThrottleBoundReached(window: nat, threads: nat) returns (states: seq<Link>, events: seq<Event>)
    requires threads >= 1 && window >= 1
    ensures Run(window, threads, states, events)
    ensures states[|events|].me.handed == window - 1 + threads && states[|events|].me.st.ackMsgCount == 0
  {
    hide Run;
    states, events := HandOverMore(window, threads, threads);
  }

  /** In every state of every run at most `bound` messages are unacked at either end. */
  ghost predicate AlwaysAhead(window: nat, threads: nat, bound: nat) {
    forall states, events, i, mine | Run(window, threads, states, events) && 0 <= i < |states| ::
      Ahead(Turn(states[i], mine).me, bound)
  }

  /** So the window bounds the unacked messages exactly if at most one thread sends at a time. */
  lemma WindowIsBound(window: nat, threads: nat)
    requires window >= 1
    ensures AlwaysAhead(window, threads, window) <==> threads <= 1
  {
    hide Run, Turn;
    if threads <= 1 {
      forall states, events, i, mine | Run(window, threads, states, events) && 0 <= i < |states|
        ensures Ahead(Turn(states[i], mine).me, window)
      {
        ThrottleBound(window, threads, states, events, i, mine);
      }
    } else {
      var states, events := ThrottleBoundReached(window, threads);
      LastTurn(window, threads, states, events);
      assert !Ahead(Turn(states[|events|], true).me, window);
    }
  }

  lemma LastTurn(window: nat, threads: nat, states: seq<Link>, events: seq<Event>)
    requires Run(window, threads, states, events)
    ensures |events| < |states| && Turn(states[|events|], true) == states[|events|]
  {
  }

  // ---- Shutdown ----

  /** Safety: once `WaitLinkTaskFinish` has returned at an end, nothing addressed to it is in
      flight, and the other end has received and acked all it ever handed over. */
  lemma ShutdownSafety(window: nat, threads: nat, states: seq<Link>, events: seq<Event>, i: nat, mine: bool)
    requires Run(window, threads, states, events) && i < |states| && Turn(states[i], mine).me.phase.Returned?
    ensures var w := Turn(states[i], mine);
            && w.peer.wire == NOTHING
            && w.me.st.receivedMsgCount == w.peer.handed
            && w.me.st.ackMsgCount == w.me.st.sentMsgCount == w.me.handed == w.peer.st.receivedMsgCount
  {
    hide Run, ThrottleInv;
    RunInv(window, threads, states, events, i);
    var w := Turn(states[i], mine);
    assert HalfInv(w.me, w.peer, window, threads) && HalfInv(w.peer, w.me, window, threads);
    assert w.me.st.receivedFin && FlyingMsgsArrived(w.me.st) && FlyingAcksArrived(w.me.st);
  }

  predicate Quiet(x: End) {
    x.running == 0 && x.wire == NOTHING
  }

  predicate FinsSent(w: Link) {
    Rank(w.me.phase) >= Rank(FinSent) && Rank(w.peer.phase) >= Rank(FinSent)
  }

  /** In one of the waits of `WaitLinkTaskFinish`, with its condition false. */
  predicate Blocked(x: End) {
    match x.phase
    case FinSent => !x.st.receivedFin
    case GotFin => !FlyingMsgsArrived(x.st)
    case GotMessages => x.running != 0
    case AsyncDone => !FlyingAcksArrived(x.st)
    case _ => false
  }

  /** Progress: with both fins sent and nothing in flight, an end is blocked exactly if it is in its
      last wait and a `Recv` at the other end has taken a message and not acked it yet. */
  lemma BlockedExactly(window: nat, threads: nat, states: seq<Link>, events: seq<Event>, i: nat, mine: bool)
    requires Run(window, threads, states, events) && i < |states| && FinsSent(states[i])
    requires Quiet(states[i].me) && Quiet(states[i].peer)
    ensures var w := Turn(states[i], mine);
            Blocked(w.me) <==> w.me.phase.AsyncDone? && w.peer.owed > 0
  {
    hide Run, ThrottleInv;
    RunInv(window, threads, states, events, i);
    var w := Turn(states[i], mine);
    assert HalfInv(w.me, w.peer, window, threads) && HalfInv(w.peer, w.me, window, threads);
    assert w.me.st.receivedFin;
  }

  /** It does happen: the only message is taken by a reader just before its side stops receiving. */
  lemma OneSent() returns (states: seq<Link>, events: seq<Event>)
    ensures Run(0, 1, states, events)
    ensures states[|events|] ==
            Link(End(Fresh(0).(sentMsgCount := 1), NOTHING.(normals := multiset{("k", [])}), Running, 1, 0, {}, 0, 1), Start(0))
  {
    hide Run;
    var x, y := Start(0), Start(0);
    var m: (string, Buffer) := ("k", []);
    states, events := RunOfNothing(0, 1);
    var x1 := x.(wire := NOTHING.(normals := multiset{m}), running := 1, handed := 1, inSend := 1);
    states, events := Then(0, 1, states, events, Event(true, HandOver(m.0, m.1)), Link(x1, y));
    var x2 := x1.(inSend := 0, waits := {1}, st := CountSent(x.st));
    states, events := Then(0, 1, states, events, Event(true, Count), Link(x2, y));
    states, events := Then(0, 1, states, events, Event(true, PassThrottle(1)), Link(x2.(waits := {}), y));
  }

  lemma OneTaken() returns (states: seq<Link>, events: seq<Event>)
    ensures Run(0, 1, states, events)
    ensures states[|events|] == Link(End(Fresh(0).(sentMsgCount := 1), NOTHING, Running, 1, 0, {}, 0, 1),
                                     End(Fresh(0).(receivedMsgCount := 1), NOTHING, Running, 0, 0, {}, 1, 0))
  {
    hide Run;
    states, events := OneSent();
    var m: (string, Buffer) := ("k", []);
    var x := End(Fresh(0).(sentMsgCount := 1), NOTHING, Running, 1, 0, {}, 0, 1);
    var y := Start(0).(st := Fresh(0).(receivedMsgCount := 1, msgDb := map[m.0 := m.1]));
    states, events := Then(0, 1, states, events, Event(false, DeliverNormal(m)), Link(x, y));
    var y1 := y.(st := Fresh(0).(receivedMsgCount := 1), owed := 1);
    states, events := Then(0, 1, states, events, Event(false, TakeKey(m.0)), Link(x, y1));
  }

  lemma TakenAndStopped() returns (states: seq<Link>, events: seq<Event>)
    ensures Run(0, 1, states, events)
    ensures states[|events|] ==
            Link(End(Fresh(0).(waitingFinish := true, sentMsgCount := 1), NOTHING, Stopped, 1, 0, {}, 0, 0),
                 End(Fresh(0).(waitingFinish := true, receivedMsgCount := 1), NOTHING, Stopped, 0, 0, {}, 1, 0))
  {
    hide Run;
    states, events := OneTaken();
    var x := End(Fresh(0).(sentMsgCount := 1), NOTHING, Running, 1, 0, {}, 0, 0);
    var y := End(Fresh(0).(receivedMsgCount := 1), NOTHING, Running, 0, 0, {}, 1, 0);
    states, events := Then(0, 1, states, events, Event(true, Reply), Link(x, y));
    var x1 := x.(phase := Stopped, st := x.st.(waitingFinish := true));
    states, events := Then(0, 1, states, events, Event(true, StopReceiving), Link(x1, y));
    var y1 := y.(phase := Stopped, st := y.st.(waitingFinish := true));
    states, events := Then(0, 1, states, events, Event(false, StopReceiving), Link(x1, y1));
  }

  lemma FinsExchanged() returns (states: seq<Link>, events: seq<Event>)
    ensures Run(0, 1, states, events)
    ensures states[|events|] == Link(
                                  End(State(map[], true, 0, 1, 0, 0, true, 0), NOTHING, FinSent, 1, 0, {}, 0, 1),
                                  End(State(map[], true, 0, 0, 1, 0, true, 1), NOTHING, FinSent, 0, 0, {}, 1, 1))
  {
    hide Run;
    states, events := TakenAndStopped();
    var x := End(Fresh(0).(waitingFinish := true, sentMsgCount := 1), NOTHING, Stopped, 1, 0, {}, 0, 0);
    var y := End(Fresh(0).(waitingFinish := true, receivedMsgCount := 1), NOTHING, Stopped, 0, 0, {}, 1, 0);
    var x1 := x.(phase := FinSent, running := 1, wire := NOTHING.(fins := multiset{1}));
    states, events := Then(0, 1, states, events, Event(true, SendFin), Link(x1, y));
    var y2 := y.(phase := FinSent, running := 1, wire := NOTHING.(fins := multiset{0}));
    states, events := Then(0, 1, states, events, Event(false, SendFin), Link(x1, y2));
    var x3 := x1.(st := OnFin(x.st, 0));
    var y3 := y2.(wire := NOTHING);
    states, events := Then(0, 1, states, events, Event(true, DeliverFin(0)), Link(x3, y3));
    states, events := Then(0, 1, states, events, Event(false, DeliverFin(1)), Link(x3.(wire := NOTHING), y3.(st := OnFin(y.st, 1))));
  }

  lemma RepliesArrived() returns (states: seq<Link>, events: seq<Event>)
    ensures Run(0, 1, states, events)
    ensures states[|events|] == Link(
                                  End(State(map[], true, 0, 1, 0, 0, true, 0), NOTHING, GotFin, 1, 0, {}, 0, 0),
                                  End(State(map[], true, 0, 0, 1, 0, true, 1), NOTHING, FinSent, 0, 0, {}, 1, 0))
  {
    hide Run;
    states, events := FinsExchanged();
    var x := End(State(map[], true, 0, 1, 0, 0, true, 0), NOTHING, FinSent, 1, 0, {}, 0, 1);
    var y := End(State(map[], true, 0, 0, 1, 0, true, 1), NOTHING, FinSent, 0, 0, {}, 1, 1);
    var x1 := x.(running := 0);
    states, events := Then(0, 1, states, events, Event(true, Reply), Link(x1, y));
    var y1 := y.(running := 0);
    states, events := Then(0, 1, states, events, Event(false, Reply), Link(x1, y1));
    states, events := Then(0, 1, states, events, Event(true, SeeFin), Link(x1.(phase := GotFin), y1));
  }

  /** The end that sent it then waits for the ack with nothing in flight. */
  lemma RecvInProgressBlocks() returns (states: seq<Link>, events: seq<Event>)
    ensures Run(0, 1, states, events)
    ensures var w := states[|events|]; FinsSent(w) && Quiet(w.me) && Quiet(w.peer) && Blocked(w.me)
  {
    hide Run;
    states, events := RepliesArrived();
    var x := End(State(map[], true, 0, 1, 0, 0, true, 0), NOTHING, GotFin, 1, 0, {}, 0, 0);
    var y := End(State(map[], true, 0, 0, 1, 0, true, 1), NOTHING, FinSent, 0, 0, {}, 1, 0);
    var x1 := x.(phase := GotMessages);
    states, events := Then(0, 1, states, events, Event(true, SeeMessages), Link(x1, y));
    var x2 := x1.(phase := AsyncDone);
    states, events := Then(0, 1, states, events, Event(true, SeeReplies), Link(x2, y));
    NowBlocked(x2, y);
  }

  lemma NowBlocked(x: End, y: End)
    requires x == End(State(map[], true, 0, 1, 0, 0, true, 0), NOTHING, AsyncDone, 1, 0, {}, 0, 0)
    requires y == End(State(map[], true, 0, 0, 1, 0, true, 1), NOTHING, FinSent, 0, 0, {}, 1, 0)
    ensures FinsSent(Link(x, y)) && Quiet(x) && Quiet(y) && Blocked(x)
  {
  }

  // ---- Shutdown ends ----

  predicate Stopping(w: Link) {
    !w.me.phase.Running? && !w.peer.phase.Running?
  }

  /** What an end can still cause: a message an ack, and each of them a reply. */
  function Weight(x: End): nat {
    3 * (6 - Rank(x.phase)) + 3 * |x.wire.normals| + x.wire.acks + |x.wire.fins| + 3 * x.owed + x.running
  }

  lemma DeliverNormalWeight(w: Link, m: (string, Buffer), threads: nat)
    requires Counted(w.me) && Stopping(w) && Enabled(w, DeliverNormal(m), threads)
    ensures var v := Do(w, DeliverNormal(m), threads);
            Stopping(v) && Weight(v.me) + Weight(v.peer) < Weight(w.me) + Weight(w.peer)
  {
    assert |w.peer.wire.normals - multiset{m}| == |w.peer.wire.normals| - 1;
  }

  lemma WeightDecreases(w: Link, step: Step, threads: nat)
    requires Counted(w.me) && Stopping(w) && Enabled(w, step, threads)
    ensures var v := Do(w, step, threads);
            Stopping(v) && Weight(v.me) + Weight(v.peer) < Weight(w.me) + Weight(w.peer)
  {
    match step
    case DeliverNormal(m) => DeliverNormalWeight(w, m, threads);
    case DeliverFin(n) => assert |w.peer.wire.fins - multiset{n}| == |w.peer.wire.fins| - 1;
    case _ =>
  }

  /** Once both ends have stopped receiving, every run that goes on is finite. */
  lemma {:induction false} ShutdownTerminates(window: nat, threads: nat, states: seq<Link>, events: seq<Event>,
                                              i: nat, j: nat)
    requires Run(window, threads, states, events) && i <= j < |states| && Stopping(states[i])
    ensures Stopping(states[j])
    ensures Weight(states[j].me) + Weight(states[j].peer) + (j - i) <= Weight(states[i].me) + Weight(states[i].peer)
  {
    hide Inv, Enabled, Do, Weight;
    if i < j {
      ShutdownTerminates(window, threads, states, events, i, j - 1);
      RunInv(window, threads, states, events, j - 1);
      TurnInv(states[j - 1], events[j - 1].mine, window, threads);
      WeightDecreases(Turn(states[j - 1], events[j - 1].mine), events[j - 1].step, threads);
    }
  }

  lemma TurnInv(w: Link, mine: bool, window: nat, threads: nat)
    requires Inv(w, window, threads)
    ensures Inv(Turn(w, mine), window, threads) && Counted(Turn(w, mine).me)
  {
  }

  /** An end that has stopped receiving gets no new `Recv` in progress. */
  lemma OwedStep(w: Link, step: Step, threads: nat)
    requires Counted(w.me) && Stopping(w) && Enabled(w, step, threads)
    ensures Do(w, step, threads).me.owed <= w.me.owed && Do(w, step, threads).peer.owed == w.peer.owed
  {
  }

  lemma {:induction false} OwedStays(window: nat, threads: nat, states: seq<Link>, events: seq<Event>, i: nat, j: nat)
    requires Run(window, threads, states, events) && i <= j < |states| && Stopping(states[i])
    ensures states[j].me.owed <= states[i].me.owed && states[j].peer.owed <= states[i].peer.owed
  {
    hide Inv, Enabled, Do;
    if i < j {
      OwedStays(window, threads, states, events, i, j - 1);
      ShutdownTerminates(window, threads, states, events, i, j - 1);
      RunInv(window, threads, states, events, j - 1);
      TurnInv(states[j - 1], events[j - 1].mine, window, threads);
      OwedStep(Turn(states[j - 1], events[j - 1].mine), events[j - 1].step, threads);
    }
  }

  /** Progress for callers: if no `Recv` is in progress at either end once both have stopped
      receiving, then from there on neither is ever blocked with nothing in flight. */
  lemma NeverBlocked(window: nat, threads: nat, states: seq<Link>, events: seq<Event>, i: nat, j: nat)
    requires Run(window, threads, states, events) && i <= j < |states|
    requires Stopping(states[i]) && states[i].me.owed == 0 && states[i].peer.owed == 0
    requires FinsSent(states[j]) && Quiet(states[j].me) && Quiet(states[j].peer)
    ensures !Blocked(states[j].me) && !Blocked(states[j].peer)
  {
    hide Run, Blocked;
    OwedStays(window, threads, states, events, i, j);
    BlockedExactly(window, threads, states, events, j, true);
    BlockedExactly(window, threads, states, events, j, false);
  }

  /** Something an end can do whatever wait it is in. */
  predicate CanDrain(w: Link) {
    w.peer.wire != NOTHING || w.me.running > InFlight(w.me) || w.me.owed > 0 || w.me.phase.Stopped?
  }

  lemma Drain(w: Link, threads: nat) returns (step: Step)
    requires CanDrain(w)
    ensures Enabled(w, step, threads)
  {
    if w.me.phase.Stopped? {
      step := SendFin;
    } else if w.me.owed > 0 {
      step := AckTaken;
    } else if w.me.running > InFlight(w.me) {
      step := Reply;
    } else if w.peer.wire.acks > 0 {
      step := DeliverAck;
    } else if w.peer.wire.fins != multiset{} {
      var n :| n in w.peer.wire.fins;
      step := DeliverFin(n);
    } else {
      var m :| m in w.peer.wire.normals;
      step := DeliverNormal(m);
    }
  }

  lemma Proceed(w: Link, window: nat, threads: nat) returns (step: Step)
    requires Inv(w, window, threads) && Stopping(w) && !CanDrain(w) && !CanDrain(Swap(w)) && !w.me.phase.Returned?
    ensures Enabled(w, step, threads)
  {
    hide ThrottleInv;
    step := match w.me.phase
      case FinSent => SeeFin
      case GotFin => SeeMessages
      case GotMessages => SeeReplies
      case _ => SeeAcks;
    assert HalfInv(w.me, w.peer, window, threads) && HalfInv(w.peer, w.me, window, threads);
    assert w.me.st.receivedFin;
  }

  /** And it ends nowhere else than with both calls of `WaitLinkTaskFinish` returned: until then
      some step can be taken. */
  lemma ShutdownCompletes(window: nat, threads: nat, states: seq<Link>, events: seq<Event>, i: nat) returns (e: Event)
    requires Run(window, threads, states, events) && i < |states| && Stopping(states[i])
    requires !(states[i].me.phase.Returned? && states[i].peer.phase.Returned?)
    ensures CanFollow(states[i], e, threads)
  {
    hide Run, Inv, Enabled, CanDrain;
    RunInv(window, threads, states, events, i);
    var w := states[i];
    var step;
    if CanDrain(w) {
      step := Drain(w, threads);
      e := Event(true, step);
    } else if CanDrain(Swap(w)) {
      step := Drain(Swap(w), threads);
      e := Event(false, step);
    } else if !w.me.phase.Returned? {
      step := Proceed(w, window, threads);
      e := Event(true, step);
    } else {
      TurnInv(w, false, window, threads);
      step := Proceed(Swap(w), window, threads);
      e := Event(false, step);
    }
  }
}
