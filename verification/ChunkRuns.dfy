/** The handler threads of the receiver (`OnChunkedMessage`, yasl/link/transport/channel.cc) as a step
    system: thread i handles chunk i, and between the locked sections the threads interleave in any way. */
module ChunkRuns {
  import opened Wrappers
  import opened Numbers
  import opened Chunking

  /** Where a thread is, and the object it holds. */
  datatype Thread =
    | Start
    | Found(held: nat)
    | Added(held: nat)
    | Full(held: nat)
    | Winner(held: nat)
    | Ready(value: Buffer)
    | Done

  /** `entry` is what `chunked_values_` holds for the key, `delivered` what `OnNormalMessage` got. */
  datatype Sys = Sys(threads: seq<Thread>, heap: seq<Object>, entry: Option<nat>, delivered: seq<Buffer>)

  function Initial(n: nat): Sys {
    Sys(seq(n, _ => Start), [], None, [])
  }

  predicate Enabled(s: Sys, i: nat) {
    && i < |s.threads|
    && match s.threads[i]
       case Done => false
       case Found(o) => o < |s.heap|
       case Added(o) => o < |s.heap|
       case Full(o) => o < |s.heap|
       case Winner(o) => o < |s.heap|
       case _ => true
  }

  /** The next step of thread i, which handles the i-th of the pushed chunks. */
  function Do(s: Sys, i: nat, pushes: seq<Push>): Sys
    requires |s.threads| == |pushes| && Enabled(s, i)
  {
    match s.threads[i]
    case Start =>
      // under the lock of the map: find the message or make it
      if s.entry.Some? then s.(threads := s.threads[i := Found(s.entry.value)])
      else
        s.(heap := s.heap + [Empty(pushes[i].numChunks)], entry := Some(|s.heap|),
        threads := s.threads[i := Found(|s.heap|)])
    case Found(o) =>
      // under the lock of the message
      s.(heap := s.heap[o := WithChunk(s.heap[o], pushes[i].chunkIndex, pushes[i].value)],
      threads := s.threads[i := Added(o)])
    case Added(o) =>
      // without a lock
      s.(threads := s.threads[i := if IsFullyFilled(s.heap[o]) then Full(o) else Done])
    case Full(o) =>
      // under the lock of the map
      if s.entry.None? then s.(threads := s.threads[i := Done])
      else s.(entry := None, threads := s.threads[i := Winner(o)])
    case Winner(o) =>
      // without a lock
      s.(heap := s.heap[o := Empty(s.heap[o].numChunks)],
      threads := s.threads[i := Ready(Joined(s.heap[o].chunks, s.heap[o].numChunks))])
    case Ready(value) => s.(delivered := s.delivered + [value], threads := s.threads[i := Done])
    case Done => s
  }

  /** The states that steps of the threads named in `turns` lead through. */
  predicate Run(pushes: seq<Push>, states: seq<Sys>, turns: seq<nat>) {
    && |states| == |turns| + 1 && states[0] == Initial(|pushes|)
    && forall j | 0 <= j < |turns| ::
         && |states[j].threads| == |pushes| && Enabled(states[j], turns[j])
         && states[j + 1] == Do(states[j], turns[j], pushes)
  }

  /** What `SendChunked` pushes. */
  predicate Pushed(payload: Buffer, bytesPerChunk: nat, pushes: seq<Push>) {
    bytesPerChunk > 0 && |pushes| == DivUp(|payload|, bytesPerChunk)
    && PushedUpTo(pushes, payload, bytesPerChunk, |pushes|, |pushes|)
  }

  // ---- What every run keeps ----

  /** All the pushed chunks in order. */
  function Whole(pushes: seq<Push>): Buffer {
    Joined(map k: nat | k < |pushes| :: pushes[k].value, |pushes|)
  }

  /** Nobody has begun. */
  predicate Untouched(s: Sys) {
    && s.heap == [] && s.entry.None? && s.delivered == []
    && forall i | 0 <= i < |s.threads| :: s.threads[i].Start?
  }

  predicate HasAdded(t: Thread) {
    !t.Start? && !t.Found?
  }

  /** The chunks added so far. */
  predicate Holds(chunks: map<nat, Buffer>, threads: seq<Thread>, pushes: seq<Push>)
    requires |threads| == |pushes|
  {
    && (forall k | k in chunks :: k < |threads| && HasAdded(threads[k]) && chunks[k] == pushes[k].value)
    && (forall k | 0 <= k < |threads| && HasAdded(threads[k]) :: k in chunks)
  }

  predicate AllAdded(s: Sys) {
    forall k | 0 <= k < |s.threads| :: HasAdded(s.threads[k])
  }

  /** A thread that is not on its way to deliver: everyone else in the end. */
  predicate Bystander(t: Thread) {
    (t.Found? || t.Added? || t.Full? ==> t.held == 0) && !t.Winner? && !t.Ready?
  }

  /** The message is being filled: there is one object; a thread has seen it full only after all
      chunks were added, and once they are, some thread is still to look or to take it. */
  ghost predicate Filling(s: Sys, pushes: seq<Push>) {
    && |s.threads| == |pushes| && |s.heap| == 1 && s.entry == Some(0) && s.delivered == []
    && s.heap[0].numChunks == |pushes| && WellSized(s.heap[0])
    && Holds(s.heap[0].chunks, s.threads, pushes)
    && (forall i | 0 <= i < |s.threads| :: Bystander(s.threads[i]))
    && ((exists i :: 0 <= i < |s.threads| && s.threads[i].Full?) ==> AllAdded(s))
    && (AllAdded(s) ==> exists i :: 0 <= i < |s.threads| && (s.threads[i].Added? || s.threads[i].Full?))
  }

  /** Thread w has taken the message and everybody else will find it gone. */
  predicate TakenBy(s: Sys, pushes: seq<Push>, w: nat) {
    && |s.threads| == |pushes| && |s.heap| == 1 && s.entry.None? && s.heap[0].numChunks == |pushes|
    && AllAdded(s) && w < |s.threads|
    && (forall i | 0 <= i < |s.threads| && i != w :: Bystander(s.threads[i]))
    && match s.threads[w]
       case Winner(o) => o == 0 && WellSized(s.heap[0]) && Holds(s.heap[0].chunks, s.threads, pushes) && s.delivered == []
       case Ready(value) => s.heap[0].chunks == map[] && value == Whole(pushes) && s.delivered == []
       case Done => s.heap[0].chunks == map[] && s.delivered == [Whole(pushes)]
       case _ => false
  }

  ghost predicate Inv(s: Sys, pushes: seq<Push>) {
    && |s.threads| == |pushes|
    && (Untouched(s) || Filling(s, pushes) || exists w :: TakenBy(s, pushes, w))
  }

  lemma SubsetSize<T>(a: set<T>, b: set<T>)
    requires a <= b
    ensures |a| <= |b| && (|a| == |b| ==> a == b)
  {
    assert b == a + (b - a);
  }

  /** The fullness check by numbers. */
  lemma FullMeansAll(chunks: map<nat, Buffer>, threads: seq<Thread>, pushes: seq<Push>)
    requires |threads| == |pushes| && Holds(chunks, threads, pushes)
    ensures |chunks| == |threads| <==> forall k | 0 <= k < |threads| :: HasAdded(threads[k])
  {
    SubsetSize(chunks.Keys, Upto(|threads|));
    assert |chunks| == |chunks.Keys|;
    if |chunks| == |threads| {
      forall k | 0 <= k < |threads|
        ensures HasAdded(threads[k])
      {
        assert k in Upto(|threads|);
      }
    }
    if forall k | 0 <= k < |threads| :: HasAdded(threads[k]) {
      assert chunks.Keys == Upto(|threads|);
    }
  }

  lemma UntouchedStep(s: Sys, i: nat, pushes: seq<Push>)
    requires |s.threads| == |pushes| && Untouched(s) && Enabled(s, i)
    requires forall k | 0 <= k < |pushes| :: pushes[k].numChunks == |pushes|
    ensures Filling(Do(s, i, pushes), pushes)
  {
    var t := Do(s, i, pushes);
    NothingJoined(|pushes|);
    assert !HasAdded(t.threads[i]);
  }

  lemma FillingStart(s: Sys, i: nat, pushes: seq<Push>)
    requires Filling(s, pushes) && Enabled(s, i) && s.threads[i].Start?
    ensures Filling(Do(s, i, pushes), pushes)
  {
    var t := Do(s, i, pushes);
    assert !HasAdded(s.threads[i]) && !HasAdded(t.threads[i]);
    assert forall k | 0 <= k < |s.threads| :: HasAdded(s.threads[k]) == HasAdded(t.threads[k]);
    assert forall k | 0 <= k < |s.threads| && t.threads[k].Full? :: s.threads[k].Full?;
  }

  lemma FillingFound(s: Sys, i: nat, pushes: seq<Push>)
    requires Filling(s, pushes) && Enabled(s, i) && s.threads[i].Found? && pushes[i].chunkIndex == i
    ensures Filling(Do(s, i, pushes), pushes)
  {
    var t := Do(s, i, pushes);
    WithChunkSized(s.heap[0], i, pushes[i].value);
    assert !HasAdded(s.threads[i]) && t.threads[i].Added?;
    assert forall k | 0 <= k < |s.threads| && k != i :: HasAdded(s.threads[k]) == HasAdded(t.threads[k]);
    assert forall k | 0 <= k < |s.threads| && t.threads[k].Full? :: s.threads[k].Full?;
  }

  lemma FillingAdded(s: Sys, i: nat, pushes: seq<Push>)
    requires Filling(s, pushes) && Enabled(s, i) && s.threads[i].Added?
    ensures Filling(Do(s, i, pushes), pushes)
  {
    var t := Do(s, i, pushes);
    FullMeansAll(s.heap[0].chunks, s.threads, pushes);
    assert forall k | 0 <= k < |s.threads| :: HasAdded(s.threads[k]) == HasAdded(t.threads[k]);
    if AllAdded(t) {
      assert AllAdded(s) && t.threads[i].Full?;
    }
    if j :| 0 <= j < |t.threads| && t.threads[j].Full? {
      assert AllAdded(s) by {
        if j != i {
          assert s.threads[j].Full?;
        }
      }
    }
  }

  lemma FillingFull(s: Sys, i: nat, pushes: seq<Push>)
    requires Filling(s, pushes) && Enabled(s, i) && s.threads[i].Full?
    ensures TakenBy(Do(s, i, pushes), pushes, i)
  {
    var t := Do(s, i, pushes);
    assert AllAdded(s);
    assert forall k | 0 <= k < |s.threads| :: HasAdded(s.threads[k]) == HasAdded(t.threads[k]);
  }

  lemma JoinedWhole(s: Sys, pushes: seq<Push>)
    requires |s.threads| == |pushes| && AllAdded(s) && |s.heap| == 1 && Holds(s.heap[0].chunks, s.threads, pushes)
    ensures Joined(s.heap[0].chunks, |pushes|) == Whole(pushes)
  {
    assert s.heap[0].chunks == map k: nat | k < |pushes| :: pushes[k].value;
  }

  lemma TakenStep(s: Sys, i: nat, pushes: seq<Push>, w: nat)
    requires TakenBy(s, pushes, w) && Enabled(s, i)
    ensures TakenBy(Do(s, i, pushes), pushes, w)
  {
    var t := Do(s, i, pushes);
    assert HasAdded(s.threads[i]);
    assert forall k | 0 <= k < |s.threads| :: HasAdded(t.threads[k]);
    if i == w && s.threads[w].Winner? {
      JoinedWhole(s, pushes);
    }
  }

  lemma StepInv(s: Sys, i: nat, pushes: seq<Push>, payload: Buffer, bytesPerChunk: nat)
    requires Pushed(payload, bytesPerChunk, pushes) && Inv(s, pushes) && Enabled(s, i)
    ensures Inv(Do(s, i, pushes), pushes)
  {
    hide Filling, TakenBy, Do;
    if Untouched(s) {
      UntouchedStep(s, i, pushes);
    } else if w :| TakenBy(s, pushes, w) {
      TakenStep(s, i, pushes, w);
    } else {
      FillingStep(s, i, pushes);
    }
    SameThreads(s, i, pushes);
  }

  lemma SameThreads(s: Sys, i: nat, pushes: seq<Push>)
    requires |s.threads| == |pushes| && Enabled(s, i)
    ensures |Do(s, i, pushes).threads| == |pushes|
  {
  }

  lemma FillingStep(s: Sys, i: nat, pushes: seq<Push>)
    requires Filling(s, pushes) && Enabled(s, i) && pushes[i].chunkIndex == i
    ensures Filling(Do(s, i, pushes), pushes) || TakenBy(Do(s, i, pushes), pushes, i)
  {
    hide Do;
    assert Bystander(s.threads[i]);
    match s.threads[i]
    case Start => FillingStart(s, i, pushes);
    case Found(_) => FillingFound(s, i, pushes);
    case Added(_) => FillingAdded(s, i, pushes);
    case Full(_) => FillingFull(s, i, pushes);
    case _ =>
  }

  lemma {:induction false} RunInv(pushes: seq<Push>, states: seq<Sys>, turns: seq<nat>, payload: Buffer,
                                  bytesPerChunk: nat, j: nat)
    requires Pushed(payload, bytesPerChunk, pushes) && Run(pushes, states, turns) && j < |states|
    ensures Inv(states[j], pushes)
  {
    hide Filling, TakenBy, Do, Enabled, Pushed;
    if j == 0 {
      assert Untouched(states[0]);
    } else {
      RunInv(pushes, states, turns, payload, bytesPerChunk, j - 1);
      StepInv(states[j - 1], turns[j - 1], pushes, payload, bytesPerChunk);
    }
  }

  // ---- The theorems ----

  lemma WholeIsPayload(payload: Buffer, bytesPerChunk: nat, pushes: seq<Push>)
    requires Pushed(payload, bytesPerChunk, pushes)
    ensures Whole(pushes) == payload
  {
    var n := |pushes|;
    var chunks := map k: nat | k < n :: pushes[k].value;
    JoinedChunks(chunks, payload, bytesPerChunk, n);
    DivUpMeaning(|payload|, bytesPerChunk);
  }

  /** In every interleaving the payload is delivered at most once, and nothing else is. */
  lemma DeliveredAtMostOnce(payload: Buffer, bytesPerChunk: nat, pushes: seq<Push>, states: seq<Sys>,
                            turns: seq<nat>, j: nat)
    requires Pushed(payload, bytesPerChunk, pushes) && Run(pushes, states, turns) && j < |states|
    ensures states[j].delivered in [[], [payload]]
  {
    hide Run;
    RunInv(pushes, states, turns, payload, bytesPerChunk, j);
    WholeIsPayload(payload, bytesPerChunk, pushes);
  }

  /** When a thread reassembles, all chunks are there, the buffer has their size, and no other thread
      is adding to the message. */
  lemma ReassembledComplete(payload: Buffer, bytesPerChunk: nat, pushes: seq<Push>, states: seq<Sys>,
                            turns: seq<nat>, j: nat, i: nat)
    requires Pushed(payload, bytesPerChunk, pushes) && Run(pushes, states, turns) && j < |states|
    requires i < |states[j].threads| && states[j].threads[i].Winner?
    ensures var s, o := states[j], states[j].threads[i].held;
            && o < |s.heap| && WellSized(s.heap[o]) && Joined(s.heap[o].chunks, s.heap[o].numChunks) == payload
            && forall k | 0 <= k < |s.threads| :: HasAdded(s.threads[k])
  {
    hide Run, Pushed;
    RunInv(pushes, states, turns, payload, bytesPerChunk, j);
    WholeIsPayload(payload, bytesPerChunk, pushes);
    assert !Bystander(states[j].threads[i]);
    JoinedWhole(states[j], pushes);
  }

  /** A thread that has not finished can go on: nobody waits for anybody. */
  lemma NobodyWaits(payload: Buffer, bytesPerChunk: nat, pushes: seq<Push>, states: seq<Sys>, turns: seq<nat>,
                    j: nat, i: nat)
    requires Pushed(payload, bytesPerChunk, pushes) && Run(pushes, states, turns) && j < |states| && i < |pushes|
    ensures i < |states[j].threads| && (Enabled(states[j], i) <==> !states[j].threads[i].Done?)
  {
    hide Run, Pushed;
    RunInv(pushes, states, turns, payload, bytesPerChunk, j);
  }

  lemma AllDone(s: Sys, pushes: seq<Push>)
    requires Inv(s, pushes) && forall i | 0 <= i < |s.threads| :: s.threads[i].Done?
    ensures s.delivered == if |pushes| == 0 then [] else [Whole(pushes)]
  {
    if |pushes| > 0 {
      assert s.threads[0].Done? && HasAdded(s.threads[0]);
      if Filling(s, pushes) {
        assert AllAdded(s);
      }
    }
  }

  /** Once all threads have finished, whatever the interleaving, the payload has been delivered
      exactly once; unless it is empty, for which no chunk is ever sent. What is sent in chunks,
      being larger than one request, is never empty. */
  lemma DeliveredExactlyOnce(payload: Buffer, bytesPerChunk: nat, pushes: seq<Push>, states: seq<Sys>,
                             turns: seq<nat>, j: nat)
    requires Pushed(payload, bytesPerChunk, pushes) && Run(pushes, states, turns) && j < |states|
    requires forall i | 0 <= i < |states[j].threads| :: states[j].threads[i].Done?
    ensures states[j].delivered == if payload == [] then [] else [payload]
    ensures |payload| > bytesPerChunk ==> states[j].delivered == [payload]
  {
    hide Run, Inv, DivUp;
    RunInv(pushes, states, turns, payload, bytesPerChunk, j);
    AllDone(states[j], pushes);
    WholeIsPayload(payload, bytesPerChunk, pushes);
    NoPieces(|payload|, bytesPerChunk);
  }

  /** The steps a thread has left at most. */
  function StepsLeft(t: Thread): int {
    match t
    case Start => 6
    case Found(_) => 5
    case Added(_) => 4
    case Full(_) => 3
    case Winner(_) => 2
    case Ready(_) => 1
    case Done => 0
  }

  function AllStepsLeft(threads: seq<Thread>): nat {
    TotalNat((t: Thread) => StepsLeft(t), threads);
    Total((t: Thread) => StepsLeft(t), threads)
  }

  lemma StepUsed(s: Sys, i: nat, pushes: seq<Push>)
    requires |s.threads| == |pushes| && Enabled(s, i)
    ensures AllStepsLeft(Do(s, i, pushes).threads) < AllStepsLeft(s.threads)
  {
    var t := Do(s, i, pushes).threads[i];
    TotalUpdate((t: Thread) => StepsLeft(t), s.threads, i, t);
    assert Do(s, i, pushes).threads == s.threads[i := t];
  }

  lemma AllStart(n: nat)
    ensures AllStepsLeft(Initial(n).threads) == 6 * n
  {
    TotalConstant((t: Thread) => StepsLeft(t), Initial(n).threads, 6);
  }

  /** Every run ends: n chunks take at most 6 n steps. */
  lemma {:induction false} RunsAreFinite(pushes: seq<Push>, states: seq<Sys>, turns: seq<nat>, j: nat)
    requires Run(pushes, states, turns) && j < |states|
    ensures j + AllStepsLeft(states[j].threads) <= 6 * |pushes|
  {
    hide Do, Enabled, AllStepsLeft;
    if j == 0 {
      AllStart(|pushes|);
    } else {
      RunsAreFinite(pushes, states, turns, j - 1);
      StepUsed(states[j - 1], turns[j - 1], pushes);
    }
  }
}
