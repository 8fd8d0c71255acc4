/** The point-to-point messages of one context among n parties, as a step system: any number of sends
    and receives, in any interleaving, over a network that delivers in any order. */
module P2pRuns {
  import opened Wrappers
  import opened Channel
  import opened P2p

  /** One direction: messages on the wire, the receiving channel, the values sent so far, the
      receives that wait, by number, and what those that have returned gave. */
  datatype Link = Link(
    inFlight: multiset<(string, Buffer)>,
    st: State,
    sent: seq<Buffer>,
    pending: set<nat>,
    returned: map<nat, Buffer>)

  /** The counters of every party's context, and the directions. */
  datatype Sys = Sys(counters: seq<map<(nat, nat), nat>>, links: map<(nat, nat), Link>)

  datatype Step =
    | Send(src: nat, dst: nat, value: Buffer)
    | Deliver(src: nat, dst: nat, message: (string, Buffer))
    | CallRecv(src: nat, dst: nat)
    | ReturnRecv(src: nat, dst: nat, number: nat)

  function InitialLink(): Link {
    Link(multiset{}, Fresh(0), [], {}, map[])
  }

  /** The world before the first call. There is no channel from a party to itself. */
  predicate Initial(s: Sys, n: nat) {
    && |s.counters| == n
    && (forall p | 0 <= p < n :: forall d | d in s.counters[p] :: s.counters[p][d] == 0)
    && (forall p | 0 <= p < n :: forall d: (nat, nat) | d in s.links :: d in s.counters[p])
    && (forall d | d in s.links :: d.0 < n && d.1 < n && d.0 != d.1 && s.links[d] == InitialLink())
  }

  /** How many messages a party has sent, or how many receives it has called, in a direction. */
  function Count(s: Sys, party: nat, d: (nat, nat)): nat {
    if party < |s.counters| && d in s.counters[party] then s.counters[party][d] else 0
  }

  predicate Enabled(s: Sys, id: string, step: Step) {
    var d := (step.src, step.dst);
    && d in s.links && step.src < |s.counters| && step.dst < |s.counters|
    && match step
       case Send(src, _, _) => d in s.counters[src]
       case Deliver(_, _, m) => m in s.links[d].inFlight
       case CallRecv(_, dst) => d in s.counters[dst]
       case ReturnRecv(src, dst, k) => k in s.links[d].pending && P2pKey(id, k, src, dst) in s.links[d].st.msgDb
  }

  function SendOn(l: Link, key: string, value: Buffer): Link {
    l.(sent := l.sent + [value], inFlight := l.inFlight + multiset{(key, value)})
  }

  function DeliverOn(l: Link, m: (string, Buffer)): Link {
    l.(inFlight := l.inFlight - multiset{m}, st := OnNormal(l.st, m.0, m.1).0)
  }

  function ReturnOn(l: Link, key: string, k: nat): Link
    requires key in l.st.msgDb
  {
    l.(st := Take(l.st, key), pending := l.pending - {k}, returned := l.returned[k := l.st.msgDb[key]])
  }

  function Do(s: Sys, id: string, step: Step): Sys
    requires Enabled(s, id, step)
  {
    var d := (step.src, step.dst);
    var l := s.links[d];
    match step
    case Send(src, dst, value) =>
      var counters := Counted(s.counters[src], src, dst);
      Sys(s.counters[src := counters], s.links[d := SendOn(l, P2pKey(id, counters[d], src, dst), value)])
    case Deliver(_, _, m) => s.(links := s.links[d := DeliverOn(l, m)])
    case CallRecv(src, dst) =>
      var counters := Counted(s.counters[dst], src, dst);
      Sys(s.counters[dst := counters], s.links[d := l.(pending := l.pending + {counters[d]})])
    case ReturnRecv(src, dst, k) => s.(links := s.links[d := ReturnOn(l, P2pKey(id, k, src, dst), k)])
  }

  predicate Run(n: nat, id: string, states: seq<Sys>, steps: seq<Step>) {
    && |states| == |steps| + 1 && Initial(states[0], n)
    && forall i | 0 <= i < |steps| :: Enabled(states[i], id, steps[i]) && states[i + 1] == Do(states[i], id, steps[i])
  }

  // ---- What every run keeps, direction by direction ----

  /** The k-th message, from 1. */
  function Nth(l: Link, id: string, src: nat, dst: nat, k: nat): (string, Buffer)
    requires 1 <= k <= |l.sent|
  {
    (P2pKey(id, k, src, dst), l.sent[k - 1])
  }

  /** How many copies of the k-th message exist: on the wire, unread, or returned. */
  function Copies(l: Link, id: string, src: nat, dst: nat, k: nat): nat
    requires 1 <= k <= |l.sent|
  {
    var m := Nth(l, id, src, dst, k);
    l.inFlight[m] + (if m.0 in l.st.msgDb then 1 else 0) + (if k in l.returned then 1 else 0)
  }

  predicate IsNth(l: Link, id: string, src: nat, dst: nat, k: nat, m: (string, Buffer)) {
    1 <= k <= |l.sent| && m == Nth(l, id, src, dst, k)
  }

  /** Whatever is on the wire or unread was sent under its number; each message sent exists exactly
      once until it is returned; receives return what was sent under their number. */
  ghost predicate LinkInv(l: Link, id: string, src: nat, dst: nat) {
    && !l.st.waitingFinish
    && (forall m | m in l.inFlight :: exists k: nat :: IsNth(l, id, src, dst, k, m))
    && (forall key | key in l.st.msgDb :: exists k: nat :: IsNth(l, id, src, dst, k, (key, l.st.msgDb[key])))
    && (forall k: nat | 1 <= k <= |l.sent| :: Copies(l, id, src, dst, k) == 1)
    && (forall k | k in l.returned :: 1 <= k <= |l.sent| && l.returned[k] == l.sent[k - 1])
  }

  /** Receives are numbered in the order of their calls, and each waits or has returned. */
  ghost predicate RecvInv(l: Link, called: nat) {
    && (forall k: nat :: 1 <= k <= called <==> k in l.pending || k in l.returned)
    && (forall k | k in l.pending :: k !in l.returned)
  }

  lemma SendLink(l: Link, id: string, src: nat, dst: nat, value: Buffer)
    requires LinkInv(l, id, src, dst)
    ensures LinkInv(SendOn(l, P2pKey(id, |l.sent| + 1, src, dst), value), id, src, dst)
  {
    hide P2pKey;
    var n := |l.sent| + 1;
    var t := SendOn(l, P2pKey(id, n, src, dst), value);
    Injective(id, src, dst);
    assert forall k: nat | 1 <= k < n :: Nth(t, id, src, dst, k) == Nth(l, id, src, dst, k);
    forall k: nat, m | IsNth(l, id, src, dst, k, m)
      ensures IsNth(t, id, src, dst, k, m)
    {
    }
    assert IsNth(t, id, src, dst, n, (P2pKey(id, n, src, dst), value));
    forall k: nat | 1 <= k <= n
      ensures Copies(t, id, src, dst, k) == 1
    {
      if k < n {
        assert Copies(l, id, src, dst, k) == 1;
      }
    }
  }

  lemma Injective(id: string, src: nat, dst: nat)
    ensures forall j: nat, k: nat | P2pKey(id, j, src, dst) == P2pKey(id, k, src, dst) :: j == k
  {
    forall j: nat, k: nat | P2pKey(id, j, src, dst) == P2pKey(id, k, src, dst)
      ensures j == k
    {
      P2pKeyInjective(id, j, src, dst, k, src, dst);
    }
  }

  lemma DeliverLink(l: Link, id: string, src: nat, dst: nat, m: (string, Buffer))
    requires LinkInv(l, id, src, dst) && m in l.inFlight
    ensures m.0 !in l.st.msgDb
    ensures LinkInv(DeliverOn(l, m), id, src, dst)
  {
    hide P2pKey;
    var t := DeliverOn(l, m);
    Injective(id, src, dst);
    var k0: nat :| IsNth(l, id, src, dst, k0, m);
    assert Copies(l, id, src, dst, k0) == 1;
    forall k: nat, m' | IsNth(l, id, src, dst, k, m')
      ensures IsNth(t, id, src, dst, k, m')
    {
    }
    forall k: nat | 1 <= k <= |t.sent|
      ensures Copies(t, id, src, dst, k) == 1
    {
      assert Copies(l, id, src, dst, k) == 1;
    }
  }

  lemma ReturnLink(l: Link, id: string, src: nat, dst: nat, k: nat)
    requires LinkInv(l, id, src, dst) && P2pKey(id, k, src, dst) in l.st.msgDb
    ensures LinkInv(ReturnOn(l, P2pKey(id, k, src, dst), k), id, src, dst)
  {
    hide P2pKey;
    var key := P2pKey(id, k, src, dst);
    var t := ReturnOn(l, key, k);
    Injective(id, src, dst);
    var k0: nat :| IsNth(l, id, src, dst, k0, (key, l.st.msgDb[key]));
    assert k0 == k && Copies(l, id, src, dst, k) == 1;
    forall j: nat, m | IsNth(l, id, src, dst, j, m)
      ensures IsNth(t, id, src, dst, j, m)
    {
    }
    forall j: nat | 1 <= j <= |t.sent|
      ensures Copies(t, id, src, dst, j) == 1
    {
      assert Copies(l, id, src, dst, j) == 1;
    }
  }

  // ---- All directions ----

  ghost predicate DirectionInv(s: Sys, id: string, d: (nat, nat))
    requires d in s.links
  {
    && d.0 < |s.counters| && d.1 < |s.counters| && d.0 != d.1
    && d in s.counters[d.0] && d in s.counters[d.1]
    && Count(s, d.0, d) == |s.links[d].sent|
    && RecvInv(s.links[d], Count(s, d.1, d))
    && LinkInv(s.links[d], id, d.0, d.1)
  }

  ghost predicate Inv(s: Sys, id: string) {
    forall d | d in s.links :: DirectionInv(s, id, d)
  }

  /** A step leaves the other directions alone. */
  lemma OtherDirections(s: Sys, id: string, step: Step, d: (nat, nat))
    requires Enabled(s, id, step) && d in s.links && d != (step.src, step.dst) && DirectionInv(s, id, d)
    ensures DirectionInv(Do(s, id, step), id, d)
  {
    hide LinkInv, RecvInv, P2pKey, DeliverOn, SendOn, ReturnOn;
  }

  lemma ThisDirection(s: Sys, id: string, step: Step)
    requires Enabled(s, id, step) && DirectionInv(s, id, (step.src, step.dst))
    ensures DirectionInv(Do(s, id, step), id, (step.src, step.dst))
  {
    hide LinkInv, P2pKey;
    var l := s.links[(step.src, step.dst)];
    match step
    case Send(src, dst, value) => SendLink(l, id, src, dst, value);
    case Deliver(src, dst, m) => DeliverLink(l, id, src, dst, m);
    case CallRecv(src, dst) => PendingLink(l, id, src, dst, l.pending + {Count(s, dst, (src, dst)) + 1});
    case ReturnRecv(src, dst, k) => ReturnLink(l, id, src, dst, k);
  }

  lemma PendingLink(l: Link, id: string, src: nat, dst: nat, pending: set<nat>)
    requires LinkInv(l, id, src, dst)
    ensures LinkInv(l.(pending := pending), id, src, dst)
  {
    hide P2pKey;
    var t := l.(pending := pending);
    forall k: nat, m | IsNth(l, id, src, dst, k, m)
      ensures IsNth(t, id, src, dst, k, m)
    {
    }
    forall k: nat | 1 <= k <= |t.sent|
      ensures Copies(t, id, src, dst, k) == 1
    {
      assert Copies(l, id, src, dst, k) == 1;
    }
  }

  lemma StepInv(s: Sys, id: string, step: Step)
    requires Inv(s, id) && Enabled(s, id, step)
    ensures Inv(Do(s, id, step), id)
  {
    hide DirectionInv, Do, Enabled;
    SameLinks(s, id, step);
    ThisDirection(s, id, step);
    forall d | d in s.links && d != (step.src, step.dst)
      ensures DirectionInv(Do(s, id, step), id, d)
    {
      OtherDirections(s, id, step, d);
    }
  }

  lemma SameLinks(s: Sys, id: string, step: Step)
    requires Enabled(s, id, step)
    ensures (step.src, step.dst) in s.links && Do(s, id, step).links.Keys == s.links.Keys
  {
  }

  lemma {:induction false} RunInv(n: nat, id: string, states: seq<Sys>, steps: seq<Step>, i: nat)
    requires Run(n, id, states, steps) && i < |states|
    ensures Inv(states[i], id)
  {
    hide DirectionInv, Do, Enabled;
    if i == 0 {
      InitialInv(states[0], id, n);
    } else {
      RunInv(n, id, states, steps, i - 1);
      StepInv(states[i - 1], id, steps[i - 1]);
    }
  }

  lemma InitialInv(s: Sys, id: string, n: nat)
    requires Initial(s, n)
    ensures Inv(s, id)
  {
  }

  // ---- The theorems ----

  /** Per-pair order: in every run the k-th receive of b from a, if it has returned, gave the value
      of the k-th send of a to b. */
  lemma KthRecvIsKthSend(n: nat, id: string, states: seq<Sys>, steps: seq<Step>, i: nat, d: (nat, nat), k: nat)
    requires Run(n, id, states, steps) && i < |states| && d in states[i].links && k in states[i].links[d].returned
    ensures var l := states[i].links[d]; 1 <= k <= |l.sent| && l.returned[k] == l.sent[k - 1]
  {
    hide Run;
    RunInv(n, id, states, steps, i);
    assert DirectionInv(states[i], id, d);
  }

  /** A receive waits for no longer than its message takes: once the k-th message has been sent, the
      k-th receive has returned, or can, or will be able to after a delivery. */
  lemma NoRecvIsStuck(n: nat, id: string, states: seq<Sys>, steps: seq<Step>, i: nat, d: (nat, nat), k: nat)
    requires Run(n, id, states, steps) && i < |states| && d in states[i].links
    requires k in states[i].links[d].pending && k <= |states[i].links[d].sent|
    ensures k >= 1
    ensures var s := states[i];
            var deliver := Deliver(d.0, d.1, (P2pKey(id, k, d.0, d.1), s.links[d].sent[k - 1]));
            || Enabled(s, id, ReturnRecv(d.0, d.1, k))
            || (Enabled(s, id, deliver) && Enabled(Do(s, id, deliver), id, ReturnRecv(d.0, d.1, k)))
  {
    hide Run, P2pKey;
    RunInv(n, id, states, steps, i);
    var s := states[i];
    assert DirectionInv(s, id, d);
    var l := s.links[d];
    assert k >= 1 && Copies(l, id, d.0, d.1, k) == 1;
  }
}
