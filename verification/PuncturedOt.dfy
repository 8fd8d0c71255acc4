/** Punctured random OT (yasl/mpctools/ot/punctured_rand_ot.cc): the sender's seed tree and the
    receiver's reconstruction of every leaf but one. */
module PuncturedOt {
  import opened Words
  import opened Wrappers

  /** One of the two seeds `SplitSeed` makes of a seed: the second when right is set. */
  function Child(g: Stream, seed: Block, right: bool): Block {
    g(seed, if right then 1 else 0)
  }

  /** The next level of the tree, left child before right child. */
  function Children(g: Stream, s: seq<Block>): (r: seq<Block>)
    ensures |r| == 2 * |s|
  {
    seq(2 * |s|, j requires 0 <= j < 2 * |s| => Child(g, s[j / 2], j % 2 == 1))
  }

  /** All nodes of level i. */
  function Level(g: Stream, master: Block, i: nat): (r: seq<Block>)
    ensures |r| == Pow2(i)
  {
    if i == 0 then [master] else Children(g, Level(g, master, i - 1))
  }

  /** acc, masked with the children on one side of every seed of s. */
  function Accumulate(g: Stream, acc: Block, s: seq<Block>, right: bool): Block {
    if s == [] then acc
    else Xor(Accumulate(g, acc, s[..|s| - 1], right), Child(g, s[|s| - 1], right))
  }

  function RemoveAt<T>(s: seq<T>, p: nat): (r: seq<T>)
    requires p < |s|
    ensures |r| == |s| - 1
  {
    s[..p] + s[p + 1..]
  }

  function InsertAt<T>(s: seq<T>, p: nat, x: T): (r: seq<T>)
    requires p <= |s|
    ensures |r| == |s| + 1
  {
    s[..p] + [x] + s[p..]
  }

  lemma {:induction false} AccumulateConcat(g: Stream, acc: Block, s: seq<Block>, t: seq<Block>, right: bool)
    ensures Accumulate(g, acc, s + t, right) == Accumulate(g, Accumulate(g, acc, s, right), t, right)
  {
    if t == [] {
      assert s + t == s;
    } else {
      assert (s + t)[..|s + t| - 1] == s + t[..|t| - 1];
      AccumulateConcat(g, acc, s, t[..|t| - 1], right);
    }
  }

  lemma {:induction false} AccumulateXor(g: Stream, acc: Block, mask: Block, s: seq<Block>, right: bool)
    ensures Accumulate(g, Xor(acc, mask), s, right) == Xor(Accumulate(g, acc, s, right), mask)
  {
    if s != [] {
      var a, c := Accumulate(g, acc, s[..|s| - 1], right), Child(g, s[|s| - 1], right);
      AccumulateXor(g, acc, mask, s[..|s| - 1], right);
      XorAssoc(a, mask, c);
      XorComm(mask, c);
      XorAssoc(a, c, mask);
    }
  }

  lemma {:induction false} AccumulateTwice(g: Stream, acc: Block, s: seq<Block>, right: bool)
    ensures Accumulate(g, Accumulate(g, acc, s, right), s, right) == acc
  {
    if s != [] {
      var s', c := s[..|s| - 1], Child(g, s[|s| - 1], right);
      AccumulateXor(g, Accumulate(g, acc, s', right), c, s', right);
      AccumulateTwice(g, acc, s', right);
      XorCancel(acc, c);
    }
  }

  /** Unmasking a level's sum with the children of all nodes but one leaves that node's child. */
  lemma MissingChild(g: Stream, s: seq<Block>, e: nat, right: bool)
    requires e < |s|
    ensures Accumulate(g, Accumulate(g, Zero(), s, right), RemoveAt(s, e), right) == Child(g, s[e], right)
  {
    hide Xor;
    var a, x, b := s[..e], [s[e]], s[e + 1..];
    var c := Child(g, s[e], right);
    assert s == (a + x) + b;
    AccumulateConcat(g, Zero(), a + x, b, right);
    AccumulateConcat(g, Zero(), a, x, right);
    var za := Accumulate(g, Zero(), a, right);
    assert x[..0] == [];
    assert Accumulate(g, za, x, right) == Xor(za, c);
    AccumulateXor(g, za, c, b, right);
    var zab := Accumulate(g, za, b, right);
    AccumulateConcat(g, Xor(zab, c), a, b, right);
    AccumulateConcat(g, Zero(), a, b, right);
    AccumulateXor(g, zab, c, RemoveAt(s, e), right);
    AccumulateTwice(g, Zero(), RemoveAt(s, e), right);
    XorZero(c);
  }

  lemma ChildrenConcat(g: Stream, s: seq<Block>, t: seq<Block>)
    ensures Children(g, s + t) == Children(g, s) + Children(g, t)
  {
  }

  lemma ChildrenOfOne(g: Stream, seed: Block)
    ensures Children(g, [seed]) == [Child(g, seed, false), Child(g, seed, true)]
  {
  }

  /** Inserting the sibling of the path's next node into the children of the known nodes gives all
      nodes of the next level but the path's. */
  lemma NextLevelButOne(g: Stream, s: seq<Block>, e: nat, goRight: bool)
    requires e < |s|
    ensures InsertAt(Children(g, RemoveAt(s, e)), 2 * e, Child(g, s[e], !goRight))
         == RemoveAt(Children(g, s), 2 * e + if goRight then 1 else 0)
  {
    hide Children, Child;
    var a, x, b := s[..e], [s[e]], s[e + 1..];
    assert s == a + x + b;
    ChildrenConcat(g, a, b);
    ChildrenConcat(g, a + x, b);
    ChildrenConcat(g, a, x);
    ChildrenOfOne(g, s[e]);
    var p, q := Children(g, a), Children(g, b);
    assert Children(g, s) == p + [Child(g, s[e], false)] + [Child(g, s[e], true)] + q;
  }

  /** The position the path has after i choices, most significant first. */
  function PathPos(choices: seq<bool>, i: nat): nat
    requires i <= |choices|
  {
    if i == 0 then 0 else 2 * PathPos(choices, i - 1) + if choices[i - 1] then 1 else 0
  }

  lemma {:induction false} PathPosBits(index: nat, choices: seq<bool>, i: nat)
    requires i <= |choices| && forall j | 0 <= j < |choices| :: choices[j] == Bit(index, |choices| - 1 - j)
    ensures PathPos(choices, i) == Low(High(index, |choices| - i), i)
  {
    if i > 0 {
      HighStep(index, |choices| - i);
      PathPosBits(index, choices, i - 1);
    }
  }

  lemma {:induction false} PathPosBound(choices: seq<bool>, i: nat)
    requires i <= |choices|
    ensures PathPos(choices, i) < Pow2(i)
  {
    if i > 0 {
      PathPosBound(choices, i - 1);
    }
  }

  /** One of the two blocks of a base OT. */
  function Pick(block: (Block, Block), second: bool): Block {
    if second then block.1 else block.0
  }

  /** One half of what the sender sends for level i: the sum of the left or of the right children,
      masked with the base OT block the receiver's masked choice selects for that side. */
  function LevelMessage(g: Stream, master: Block, i: nat, block: (Block, Block), masked: bool, right: bool): Block {
    Xor(Accumulate(g, Zero(), Level(g, master, i), right), Pick(block, masked != right))
  }

  /** The pair of blocks the sender sends for level i. */
  function LevelMessages(g: Stream, master: Block, i: nat, block: (Block, Block), masked: bool): (Block, Block) {
    (LevelMessage(g, master, i, block, masked, false), LevelMessage(g, master, i, block, masked, true))
  }

  /** `PuncturedROTSend`: all leaves, and one pair of messages per level. */
  method Send(g: Stream, n: nat, master: Block, blocks: seq<(Block, Block)>, masked: seq<bool>)
    returns (r: Result<(seq<Block>, seq<(Block, Block)>)>)
    requires 0 < n && FloorLog2(n) <= |masked|
    ensures r.Ok? <==> |blocks| >= FloorLog2(n) && n > 1
    ensures r.Ok? ==>
              && r.value.0 == Level(g, master, FloorLog2(n))
              && |r.value.1| == FloorLog2(n)
              && forall i | 0 <= i < FloorLog2(n) :: r.value.1[i] == LevelMessages(g, master, i, blocks[i], masked[i])
  {
    hide Xor, Accumulate, Level, FloorLog2, Zero;
    var otNum := FloorLog2(n);
    if |blocks| < otNum || n <= 1 {
      return Err;
    }
    var seeds, sums := Expand(g, master, otNum);
    var messages := [];
    for i := 0 to otNum
      invariant |messages| == i
      invariant forall j | 0 <= j < i :: messages[j] == LevelMessages(g, master, j, blocks[j], masked[j])
    {
      var m0 := Xor(sums[i].0, Pick(blocks[i], masked[i]));
      var m1 := Xor(sums[i].1, Pick(blocks[i], !masked[i]));
      messages := messages + [(m0, m1)];
    }
    return Ok((seeds, messages));
  }

  /** The unmasked sums of level i, left children and right children. */
  function LevelSums(g: Stream, master: Block, i: nat): (Block, Block) {
    (Accumulate(g, Zero(), Level(g, master, i), false), Accumulate(g, Zero(), Level(g, master, i), true))
  }

  /** The expansion of the tree, level by level, in one vector. */
  method Expand(g: Stream, master: Block, otNum: nat) returns (seeds: seq<Block>, sums: seq<(Block, Block)>)
    ensures seeds == Level(g, master, otNum) && |sums| == otNum
    ensures forall i | 0 <= i < otNum :: sums[i] == LevelSums(g, master, i)
  {
    hide Xor, Pow2, Accumulate;
    seeds := [master];
    sums := [];
    for i := 0 to otNum
      invariant seeds == Level(g, master, i) && |sums| == i
      invariant forall k | 0 <= k < i :: sums[k] == LevelSums(g, master, k)
    {
      var sumLeft, sumRight;
      seeds, sumLeft, sumRight := ExpandLevel(g, seeds);
      sums := sums + [(sumLeft, sumRight)];
    }
  }

  /** One level: the children are pushed behind the level's nodes, which are then erased. */
  method ExpandLevel(g: Stream, nodes: seq<Block>) returns (seeds: seq<Block>, sumLeft: Block, sumRight: Block)
    ensures seeds == Children(g, nodes)
    ensures sumLeft == Accumulate(g, Zero(), nodes, false) && sumRight == Accumulate(g, Zero(), nodes, true)
  {
    hide Xor, Zero;
    var iterNum := |nodes|;
    seeds, sumLeft, sumRight := nodes, Zero(), Zero();
    for j := 0 to iterNum
      invariant seeds == nodes + Children(g, nodes[..j])
      invariant sumLeft == Accumulate(g, Zero(), nodes[..j], false)
      invariant sumRight == Accumulate(g, Zero(), nodes[..j], true)
    {
      var left, right := Child(g, seeds[j], false), Child(g, seeds[j], true);
      sumLeft, sumRight := Xor(sumLeft, left), Xor(sumRight, right);
      seeds := seeds + [left] + [right];
      assert nodes[..j + 1][..j] == nodes[..j];
      ChildrenPush(g, nodes, j);
    }
    assert nodes[..iterNum] == nodes;
    seeds := seeds[iterNum..];
  }

  lemma ChildrenPush(g: Stream, nodes: seq<Block>, j: nat)
    requires j < |nodes|
    ensures Children(g, nodes[..j + 1])
         == Children(g, nodes[..j]) + [Child(g, nodes[j], false)] + [Child(g, nodes[j], true)]
  {
  }

  // ---- The receiver ----

  /** The bits of index, most significant of the low d first. */
  predicate ChoicesOf(choices: seq<bool>, d: nat, index: nat) {
    |choices| == d && forall j | 0 <= j < d :: choices[j] == Bit(index, d - 1 - j)
  }

  /** The first half of `PuncturedROTRecv`: the choices and the masked choices sent to the sender.
      The message format needs between 2 and 63 choices. */
  method Choose(n: nat, index: nat, rotChoices: seq<bool>, rotBlocks: seq<Block>)
    returns (r: Result<(seq<bool>, seq<bool>)>)
    requires 0 < n
    ensures r.Ok? <==> 2 <= FloorLog2(n) < 64 && |rotChoices| >= FloorLog2(n) && |rotBlocks| >= FloorLog2(n)
    ensures r.Ok? ==>
              && ChoicesOf(r.value.0, FloorLog2(n), index)
              && |r.value.1| == FloorLog2(n)
              && forall i | 0 <= i < FloorLog2(n) :: r.value.1[i] == (!r.value.0[i] != rotChoices[i])
  {
    hide Bit;
    var otNum := FloorLog2(n);
    if n <= 1 || |rotChoices| < otNum || |rotBlocks| < otNum {
      return Err;
    }
    var choices := seq(otNum, _ => false);
    for i := 0 to otNum
      invariant |choices| == otNum
      invariant forall j | otNum - i <= j < otNum :: choices[j] == Bit(index, otNum - 1 - j)
    {
      choices := choices[otNum - i - 1 := Bit(index, i)];
    }
    var masked := [];
    for i := 0 to otNum
      invariant |masked| == i && forall j | 0 <= j < i :: masked[j] == (!choices[j] != rotChoices[j])
    {
      masked := masked + [!choices[i] != rotChoices[i]];
    }
    if !(64 > otNum > 1) {
      return Err;
    }
    return Ok((choices, masked));
  }

  /** The seeds the receiver holds after i levels, whatever messages it got. */
  function Received(g: Stream, choices: seq<bool>, rotBlocks: seq<Block>, messages: seq<(Block, Block)>,
                    i: nat): (r: seq<Block>)
    requires i <= |choices| && i <= |rotBlocks| && i <= |messages|
    ensures |r| == Pow2(i) - 1
  {
    if i == 0 then []
    else
      PathPosBound(choices, i - 1);
      InsertAt(Children(g, Received(g, choices, rotBlocks, messages, i - 1)), 2 * PathPos(choices, i - 1),
               Accumulate(g, Xor(Pick(messages[i - 1], !choices[i - 1]), rotBlocks[i - 1]),
                          Received(g, choices, rotBlocks, messages, i - 1), !choices[i - 1]))
  }

  /** The second half of `PuncturedROTRecv`. */
  method Recv(g: Stream, choices: seq<bool>, rotBlocks: seq<Block>, messages: seq<(Block, Block)>)
    returns (seeds: seq<Block>)
    requires |rotBlocks| >= |choices| && |messages| >= |choices|
    ensures seeds == Received(g, choices, rotBlocks, messages, |choices|)
  {
    hide Xor, Children, Accumulate, Zero;
    seeds := [];
    var emptyPos := 0;
    for i := 0 to |choices|
      invariant seeds == Received(g, choices, rotBlocks, messages, i)
      invariant emptyPos == PathPos(choices, i)
    {
      var otChoice := !choices[i];
      var insertPos := 2 * emptyPos;
      PathPosBound(choices, i);
      emptyPos := 2 * emptyPos + if choices[i] then 1 else 0;
      var current := Xor(Pick(messages[i], otChoice), rotBlocks[i]);
      seeds, current := RecvLevel(g, seeds, current, otChoice);
      if insertPos == |seeds| {
        assert InsertAt(seeds, insertPos, current) == seeds + [current];
        seeds := seeds + [current];
      } else {
        seeds := InsertAt(seeds, insertPos, current);
      }
    }
  }

  /** One level: expand every known seed and unmask the received sum with the children on its side. */
  method RecvLevel(g: Stream, known: seq<Block>, sum: Block, otChoice: bool) returns (seeds: seq<Block>, current: Block)
    ensures seeds == Children(g, known)
    ensures current == Accumulate(g, sum, known, otChoice)
  {
    hide Xor;
    var iterNum := |known|;
    seeds, current := known, sum;
    for j := 0 to iterNum
      invariant seeds == known + Children(g, known[..j])
      invariant current == Accumulate(g, sum, known[..j], otChoice)
    {
      var left, right := Child(g, seeds[j], false), Child(g, seeds[j], true);
      seeds := seeds + [left] + [right];
      current := Xor(current, if otChoice then right else left);
      assert known[..j + 1][..j] == known[..j];
      ChildrenPush(g, known, j);
    }
    assert known[..iterNum] == known;
    if seeds != [] {
      seeds := seeds[iterNum..];
    }
  }

  /** The messages, choices and base OTs of one run fit together. */
  predicate Consistent(g: Stream, master: Block, choices: seq<bool>, blocks: seq<(Block, Block)>,
                       rotChoices: seq<bool>, rotBlocks: seq<Block>, messages: seq<(Block, Block)>)
  {
    && |messages| == |choices| <= |blocks| && |choices| <= |rotChoices| && |choices| <= |rotBlocks|
    && forall i | 0 <= i < |choices| ::
         && rotBlocks[i] == Pick(blocks[i], rotChoices[i])
         && messages[i] == LevelMessages(g, master, i, blocks[i], !choices[i] != rotChoices[i])
  }

  /** The receiver's half of a message, unmasked with its base OT block, is the sender's sum. */
  lemma Unmask(g: Stream, master: Block, choices: seq<bool>, blocks: seq<(Block, Block)>,
               rotChoices: seq<bool>, rotBlocks: seq<Block>, messages: seq<(Block, Block)>, i: nat)
    requires Consistent(g, master, choices, blocks, rotChoices, rotBlocks, messages) && i < |choices|
    ensures Xor(Pick(messages[i], !choices[i]), rotBlocks[i])
         == Accumulate(g, Zero(), Level(g, master, i), !choices[i])
  {
    hide Xor, Accumulate, Level, Zero;
    XorCancel(Accumulate(g, Zero(), Level(g, master, i), !choices[i]), rotBlocks[i]);
  }

  lemma ReceivedStep(g: Stream, choices: seq<bool>, rotBlocks: seq<Block>, messages: seq<(Block, Block)>, i: nat)
    requires i < |choices| && i < |rotBlocks| && i < |messages|
    ensures PathPos(choices, i) < Pow2(i)
    ensures var known := Received(g, choices, rotBlocks, messages, i);
            Received(g, choices, rotBlocks, messages, i + 1)
            == InsertAt(Children(g, known), 2 * PathPos(choices, i),
                        Accumulate(g, Xor(Pick(messages[i], !choices[i]), rotBlocks[i]), known, !choices[i]))
  {
    hide Xor, Accumulate, Children, Pick, InsertAt;
    PathPosBound(choices, i);
  }

  lemma TreeStep(g: Stream, master: Block, choices: seq<bool>, i: nat)
    requires i < |choices|
    ensures Level(g, master, i + 1) == Children(g, Level(g, master, i))
    ensures PathPos(choices, i + 1) == 2 * PathPos(choices, i) + if choices[i] then 1 else 0
  {
  }

  /** The invariant: after level i the receiver holds all nodes of level i but the one on the path. */
  lemma {:induction false} ReceivedIsPunctured(
    g: Stream, master: Block, choices: seq<bool>, blocks: seq<(Block, Block)>,
    rotChoices: seq<bool>, rotBlocks: seq<Block>, messages: seq<(Block, Block)>, i: nat)
    requires Consistent(g, master, choices, blocks, rotChoices, rotBlocks, messages) && i <= |choices|
    ensures PathPos(choices, i) < Pow2(i)
    ensures Received(g, choices, rotBlocks, messages, i) == RemoveAt(Level(g, master, i), PathPos(choices, i))
  {
    hide Received, Level, PathPos, Accumulate, Xor, Children, RemoveAt, InsertAt, Pick, Zero, LevelMessages, Pow2;
    PathPosBound(choices, i);
    if i == 0 {
      ReceivedBase(g, master, choices, rotBlocks, messages);
    } else {
      var j := i - 1;
      ReceivedIsPunctured(g, master, choices, blocks, rotChoices, rotBlocks, messages, j);
      Unmask(g, master, choices, blocks, rotChoices, rotBlocks, messages, j);
      ReceivedStep(g, choices, rotBlocks, messages, j);
      TreeStep(g, master, choices, j);
      PunctureStep(g, Level(g, master, j), PathPos(choices, j), choices[j]);
    }
  }

  lemma ReceivedBase(g: Stream, master: Block, choices: seq<bool>, rotBlocks: seq<Block>, messages: seq<(Block, Block)>)
    ensures PathPos(choices, 0) == 0
    ensures Received(g, choices, rotBlocks, messages, 0) == RemoveAt(Level(g, master, 0), 0)
  {
  }

  lemma PunctureStep(g: Stream, nodes: seq<Block>, e: nat, goRight: bool)
    requires e < |nodes|
    ensures var known := RemoveAt(nodes, e);
            InsertAt(Children(g, known), 2 * e, Accumulate(g, Accumulate(g, Zero(), nodes, !goRight), known, !goRight))
            == RemoveAt(Children(g, nodes), 2 * e + if goRight then 1 else 0)
  {
    hide Accumulate, Children, Zero;
    MissingChild(g, nodes, e, !goRight);
    NextLevelButOne(g, nodes, e, goRight);
  }

  /** A whole run: whatever n >= 4 and index are, the receiver ends up with the sender's leaves
      without the one at index (modulo the number of leaves). */
  method PuncturedROT(g: Stream, n: nat, index: nat, master: Block, blocks: seq<(Block, Block)>,
                      rotChoices: seq<bool>, rotBlocks: seq<Block>)
    returns (entire: seq<Block>, punctured: seq<Block>)
    requires 4 <= n < 0x1_0000_0000
    requires |blocks| == |rotChoices| == |rotBlocks| >= FloorLog2(n)
    requires forall i | 0 <= i < |blocks| :: rotBlocks[i] == Pick(blocks[i], rotChoices[i])
    ensures entire == Level(g, master, FloorLog2(n))
    ensures Low(index, FloorLog2(n)) < |entire|
    ensures punctured == RemoveAt(entire, Low(index, FloorLog2(n)))
    ensures (exists d: nat :: n == Pow2(d)) && index < n ==> |entire| == n && punctured == RemoveAt(entire, index)
  {
    hide Pow2, Low, Xor, Bit, LevelMessages, Received, Level, FloorLog2, PathPos;
    FloorLog2Range(n);
    var chosen := Choose(n, index, rotChoices, rotBlocks);
    var (choices, masked) := chosen.value;
    var sent := Send(g, n, master, blocks, masked);
    var (seeds, messages) := sent.value;
    entire := seeds;
    punctured := Recv(g, choices, rotBlocks, messages);
    ReceivedIsPunctured(g, master, choices, blocks, rotChoices, rotBlocks, messages, |choices|);
    PathPosBits(index, choices, |choices|);
    HighOfNone(index);
    LevelOfPow2(g, n, index, master);
  }

  /** For a power of two there are n leaves, and the index is one of them. */
  lemma LevelOfPow2(g: Stream, n: nat, index: nat, master: Block)
    ensures (exists d: nat :: n == Pow2(d)) && index < n ==>
              |Level(g, master, FloorLog2(n))| == n && Low(index, FloorLog2(n)) == index
  {
    hide Level, Low, Pow2, FloorLog2;
    if d: nat :| n == Pow2(d) {
      FloorLog2OfPow2(d);
      if index < n {
        LowSmall(index, d);
      }
    }
  }

  lemma HighOfNone(x: nat)
    ensures High(x, 0) == x
  {
  }

  lemma FloorLog2Range(n: nat)
    requires 4 <= n < 0x1_0000_0000
    ensures 2 <= FloorLog2(n) < 32
  {
    FloorLog2Meaning(n);
    Pow2Of32();
    if FloorLog2(n) >= 32 {
      Pow2Monotone(32, FloorLog2(n));
    }
    assert FloorLog2(n / 2) >= 1;
  }
}
