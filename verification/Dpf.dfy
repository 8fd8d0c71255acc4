/** Distributed point functions (yasl/mpctools/dpf): the walk down the tree, the key
    relation that `Gen` establishes, and the theorem that two keys share a point function. */
module Dpf {
  import opened Words

  /** One level's correction word; the two control bits live in one byte. */
  datatype DpfCW = DpfCW(seed: Block, tStore: nat) {
    predicate GetTLeft() { tStore % 2 == 1 }

    predicate GetTRight() { tStore / 2 % 2 == 1 }

    function SetSeed(s: Block): DpfCW { this.(seed := s) }

    function SetTLeft(t: bool): DpfCW {
      this.(tStore := (if GetTRight() then 2 else 0) + (if t then 1 else 0))
    }

    function SetTRight(t: bool): DpfCW {
      this.(tStore := (if t then 2 else 0) + (if GetTLeft() then 1 else 0))
    }
  }

  datatype DpfKey = DpfKey(rank: bool, enableEvalAll: bool, cwsVec: seq<DpfCW>, lastCwVec: seq<nat>, mseed: Block)

  /** A tree node as one party holds it: the working seed and the working control bit. */
  datatype Node = Node(seed: Block, t: bool)

  function SplitDpfSeed(g: Stream, seed: Block): (Block, bool, Block, bool) {
    var tmp := g(seed, 2);
    (g(seed, 0), tmp[1], g(seed, 1), tmp[2])
  }

  function DpfPRG(g: Stream, seed: Block): Block {
    g(seed, 0)
  }

  /** The k-th output block of a leaf: the generator applied to its own last output. */
  function Chain(g: Stream, seed: Block, k: nat): Block {
    if k == 0 then DpfPRG(g, seed) else DpfPRG(g, Chain(g, seed, k - 1))
  }

  /** One level of a party's walk, to the right child when bit is set. */
  function Step(g: Stream, cw: DpfCW, node: Node, bit: bool): Node {
    var (seedLeft, tLeft, seedRight, tRight) := SplitDpfSeed(g, node.seed);
    if bit then
      Node(if node.t then Xor(seedRight, cw.seed) else seedRight, tRight != (node.t && cw.GetTRight()))
    else
      Node(if node.t then Xor(seedLeft, cw.seed) else seedLeft, tLeft != (node.t && cw.GetTLeft()))
  }

  /** The node a party reaches after following the low i bits of x from its root. */
  function NodeAt(g: Stream, cws: seq<DpfCW>, root: Node, x: nat, i: nat): Node
    requires i <= |cws|
  {
    if i == 0 then root else Step(g, cws[i - 1], NodeAt(g, cws, root, x, i - 1), Bit(x, i - 1))
  }

  lemma {:induction false} NodeAtPrefix(g: Stream, cws: seq<DpfCW>, cws': seq<DpfCW>, root: Node, x: nat, i: nat)
    requires i <= |cws| && i <= |cws'| && cws[..i] == cws'[..i]
    ensures NodeAt(g, cws, root, x, i) == NodeAt(g, cws', root, x, i)
  {
    if i > 0 {
      assert cws[..i - 1] == cws[..i][..i - 1] == cws'[..i][..i - 1] == cws'[..i - 1];
      assert cws[i - 1] == cws[..i][i - 1] == cws'[..i][i - 1] == cws'[i - 1];
      NodeAtPrefix(g, cws, cws', root, x, i - 1);
    }
  }

  /** Numbers with the same low bits lead to the same node. */
  lemma {:induction false} NodeAtLowBits(g: Stream, cws: seq<DpfCW>, root: Node, x: nat, y: nat, i: nat)
    requires i <= |cws| && Low(x, i) == Low(y, i)
    ensures NodeAt(g, cws, root, x, i) == NodeAt(g, cws, root, y, i)
  {
    if i > 0 {
      AgreeLow(x, y, i - 1);
      NodeAtLowBits(g, cws, root, x, y, i - 1);
    }
  }

  /** cw corrects the pair of nodes (a, b) at a level where alpha goes to the child `bit`:
      it cancels the two parties' seeds off the path, makes their control bits equal there,
      and keeps the control bits different on the path. */
  predicate Corrects(g: Stream, cw: DpfCW, a: Node, b: Node, bit: bool) {
    var (left0, tLeft0, right0, tRight0) := SplitDpfSeed(g, a.seed);
    var (left1, tLeft1, right1, tRight1) := SplitDpfSeed(g, b.seed);
    && cw.seed == (if bit then Xor(left0, left1) else Xor(right0, right1))
    && cw.tStore < 4
    && ((tLeft0 != cw.GetTLeft()) != tLeft1) == !bit
    && ((tRight0 != cw.GetTRight()) != tRight1) == bit
  }

  /** Every level's correction word corrects the nodes on alpha's path. */
  predicate PathCorrected(g: Stream, cws: seq<DpfCW>, root0: Node, root1: Node, alpha: nat) {
    forall i | 0 <= i < |cws| ::
      Corrects(g, cws[i], NodeAt(g, cws, root0, alpha, i), NodeAt(g, cws, root1, alpha, i), Bit(alpha, i))
  }

  /** One level: nodes with different bits go on with different bits or meet, equal nodes stay equal. */
  lemma LevelStep(g: Stream, cw: DpfCW, a: Node, b: Node, bit: bool, alphaBit: bool, following: bool)
    requires if following then a.t != b.t && Corrects(g, cw, a, b, alphaBit) else a == b
    ensures var a', b' := Step(g, cw, a, bit), Step(g, cw, b, bit);
            if following && bit == alphaBit then a'.t != b'.t else a' == b'
  {
  }

  /** The level invariant. While x follows alpha the control bits of the two parties differ;
      once it has left alpha's path the parties hold the same seed and the same bit. */
  lemma {:induction false} LevelInvariant(
    g: Stream, cws: seq<DpfCW>, root0: Node, root1: Node, alpha: nat, x: nat, i: nat)
    requires PathCorrected(g, cws, root0, root1, alpha) && root0.t != root1.t && i <= |cws|
    ensures var a, b := NodeAt(g, cws, root0, x, i), NodeAt(g, cws, root1, x, i);
            if Low(x, i) == Low(alpha, i) then a.t != b.t else a == b
  {
    if i > 0 {
      hide Low, Bit, Corrects, Step;
      var j := i - 1;
      LevelInvariant(g, cws, root0, root1, alpha, x, j);
      AgreeLow(x, alpha, j);
      if Low(x, j) == Low(alpha, j) {
        NodeAtLowBits(g, cws, root0, x, alpha, j);
        NodeAtLowBits(g, cws, root1, x, alpha, j);
      }
      LevelStep(g, cws[j], NodeAt(g, cws, root0, x, j), NodeAt(g, cws, root1, x, j), Bit(x, j), Bit(alpha, j),
                Low(x, j) == Low(alpha, j));
    }
  }

  /** Correction words are determined by the roots and alpha. */
  lemma {:induction false} PathCorrectedUnique(
    g: Stream, cws: seq<DpfCW>, cws': seq<DpfCW>, root0: Node, root1: Node, alpha: nat, i: nat)
    requires PathCorrected(g, cws, root0, root1, alpha) && PathCorrected(g, cws', root0, root1, alpha)
    requires i <= |cws| == |cws'|
    ensures cws[..i] == cws'[..i]
  {
    hide Bit, Corrects, NodeAt;
    if i > 0 {
      PathCorrectedUnique(g, cws, cws', root0, root1, alpha, i - 1);
      NodeAtPrefix(g, cws, cws', root0, alpha, i - 1);
      NodeAtPrefix(g, cws, cws', root1, alpha, i - 1);
      CorrectsUnique(g, cws[i - 1], cws'[i - 1], NodeAt(g, cws, root0, alpha, i - 1), NodeAt(g, cws, root1, alpha, i - 1),
                     Bit(alpha, i - 1));
      assert cws[..i] == cws[..i - 1] + [cws[i - 1]];
      assert cws'[..i] == cws'[..i - 1] + [cws'[i - 1]];
    }
  }

  lemma CorrectsUnique(g: Stream, cw: DpfCW, cw': DpfCW, a: Node, b: Node, bit: bool)
    requires Corrects(g, cw, a, b, bit) && Corrects(g, cw', a, b, bit)
    ensures cw == cw'
  {
  }

  // ---- Arithmetic modulo 2^ss, inside 128-bit words ----

  /** Unsigned 128-bit arithmetic wraps around. */
  function U128(x: nat): nat { Low(x, WIDTH) }

  function GetSsMask(ss: nat): nat {
    if ss == 64 then 0xFFFF_FFFF_FFFF_FFFF else Pow2(ss) - 1
  }

  function TruncateSs(ss: nat, input: nat): nat { AndInt(input, GetSsMask(ss)) }

  function ReverseSs(ss: nat, input: nat): nat {
    TruncateBound(ss, input);
    TruncateSs(ss, U128(GetSsMask(ss) - TruncateSs(ss, input) + 1))
  }

  lemma MaskIsAllOnes(ss: nat)
    ensures GetSsMask(ss) == Pow2(ss) - 1
  {
    Pow2Of64();
  }

  lemma TruncateBound(ss: nat, input: nat)
    ensures TruncateSs(ss, input) == Low(input, ss)
    ensures TruncateSs(ss, input) <= GetSsMask(ss)
  {
    MaskIsAllOnes(ss);
    AndOnes(input, ss);
    LowBound(input, ss);
  }

  /** `TruncateSs` keeps the residue modulo 2^ss, `ReverseSs` negates it. */
  lemma TruncateReverse(ss: nat, x: nat)
    requires ss <= 64
    ensures TruncateSs(ss, x) == TruncateSs(ss, U128(x)) == Low(x, ss)
    ensures ReverseSs(ss, x) == Low(0 - x, ss)
  {
    hide Low, Pow2, AndInt;
    MaskIsAllOnes(ss);
    TruncateBound(ss, x);
    TruncateBound(ss, U128(x));
    LowLow(x, WIDTH, ss);
    var y := Pow2(ss) - Low(x, ss);
    TruncateBound(ss, U128(y));
    LowLow(y, WIDTH, ss);
    LowPow2(0 - Low(x, ss), ss);
    LowSub(x, 0, ss);
  }

  /** The last correction word turns the difference of the two parties' leaf outputs into the target. */
  predicate Settles(ss: nat, target: nat, p0: nat, p1: nat, t1: bool, cw: nat) {
    && cw < Pow2(ss)
    && Low(p0 - p1 + (if t1 then 0 - cw else cw), ss) == Low(target, ss)
  }

  lemma LastCwSettles(ss: nat, target: nat, p0: nat, p1: nat)
    requires ss <= 64
    ensures var cw := TruncateSs(ss, U128(target + ReverseSs(ss, p0) + p1));
            Settles(ss, target, p0, p1, false, cw) && Settles(ss, target, p0, p1, true, ReverseSs(ss, cw))
    ensures TruncateSs(ss, U128(target + ReverseSs(ss, p0) + TruncateSs(ss, p1)))
         == TruncateSs(ss, U128(target + ReverseSs(ss, p0) + p1))
  {
    hide Low, AndInt, Pow2;
    TruncateReverse(ss, p0);
    TruncateReverse(ss, p1);
    TruncateReverse(ss, target + ReverseSs(ss, p0) + p1);
    TruncateReverse(ss, target + ReverseSs(ss, p0) + TruncateSs(ss, p1));
    LowAdd(p1, target + ReverseSs(ss, p0), ss);
    LowAdd(0 - p0, target + p1, ss);
    var cw: int := TruncateSs(ss, U128(target + ReverseSs(ss, p0) + p1));
    assert cw == Low(target + p1 - p0, ss);
    LowBound(target + p1 - p0, ss);
    LowBound(0 - cw, ss);
    LowAdd(target + p1 - p0, p0 - p1, ss);
    TruncateReverse(ss, cw);
    LowSub(0 - cw, p0 - p1, ss);
  }

  /** At most one correction word settles a leaf. */
  lemma SettlesUnique(ss: nat, target: nat, p0: nat, p1: nat, t1: bool, cw: nat, cw': nat)
    requires Settles(ss, target, p0, p1, t1, cw) && Settles(ss, target, p0, p1, t1, cw')
    ensures cw == cw'
  {
    hide Low, Pow2;
    var d := p0 - p1;
    if t1 {
      LowSub(d - cw, d, ss);
      LowSub(d - cw', d, ss);
    } else {
      LowAdd(d + cw, 0 - d, ss);
      LowAdd(d + cw', 0 - d, ss);
    }
    LowSmall(cw, ss);
    LowSmall(cw', ss);
  }

  /** What a party returns at a leaf, from its generator output and its last correction word. */
  function Output(ss: nat, rank: bool, prg: nat, t: bool, cw: nat): nat {
    var v := U128(TruncateSs(ss, prg) + (if t then cw else 0));
    if rank then ReverseSs(ss, v) else TruncateSs(ss, v)
  }

  lemma OutputResidue(ss: nat, rank: bool, prg: nat, t: bool, cw: nat)
    requires ss <= 64
    ensures var v := prg + (if t then cw else 0);
            Output(ss, rank, prg, t, cw) == Low(if rank then 0 - v else v, ss)
  {
    hide Low, AndInt, Pow2;
    var w := if t then cw else 0;
    TruncateReverse(ss, prg);
    var v := TruncateSs(ss, prg) + w;
    TruncateReverse(ss, v);
    TruncateReverse(ss, U128(v));
    LowAdd(prg, w, ss);
    LowSub(U128(v), 0, ss);
    LowSub(prg + w, 0, ss);
  }

  /** The two parties' outputs add up to the target where the control bits differ, and to zero
      where the parties hold the same node. */
  lemma OutputsSum(ss: nat, target: nat, p0: nat, p1: nat, t0: bool, t1: bool, cw: nat)
    requires ss <= 64
    requires if t0 != t1 then Settles(ss, target, p0, p1, t1, cw) else p0 == p1
    ensures TruncateSs(ss, U128(Output(ss, false, p0, t0, cw) + Output(ss, true, p1, t1, cw)))
         == if t0 != t1 then Low(target, ss) else 0
  {
    hide Low, AndInt, Pow2;
    OutputResidue(ss, false, p0, t0, cw);
    OutputResidue(ss, true, p1, t1, cw);
    var a, b := p0 + (if t0 then cw else 0), p1 + (if t1 then cw else 0);
    TruncateReverse(ss, Low(a, ss) + Low(0 - b, ss));
    LowAdd(a, Low(0 - b, ss), ss);
    LowAdd(0 - b, a, ss);
    LowSmall(0, ss);
  }

  // ---- The point function ----

  /** `Eval` of a key at x, for a tree of depth |key.cwsVec|. */
  function EvalAt(g: Stream, ss: nat, key: DpfKey, x: nat): nat
    requires |key.lastCwVec| > 0
  {
    var node := NodeAt(g, key.cwsVec, Node(key.mseed, key.rank), x, |key.cwsVec|);
    Output(ss, key.rank, Value(DpfPRG(g, node.seed)), node.t, key.lastCwVec[0])
  }

  /** What `EvalAll` writes at x: the leaf of the low bits of x, and in it the output the high bits select. */
  function EvalAllAt(g: Stream, ss: nat, key: DpfKey, x: nat): nat
    requires High(x, |key.cwsVec|) < |key.lastCwVec|
  {
    var level := |key.cwsVec|;
    var node := NodeAt(g, key.cwsVec, Node(key.mseed, key.rank), x, level);
    var i := High(x, level);
    Output(ss, key.rank, Value(Chain(g, node.seed, i)), node.t, key.lastCwVec[i])
  }

  /** `alpha_pos_term_level`, a `uint32_t`. */
  function AlphaPos(alpha: nat, level: nat): nat {
    High(alpha, level) % 0x1_0000_0000
  }

  /** The relation `Gen` establishes between the two keys, for a tree of depth `level` with
      `expand` outputs at each leaf. */
  predicate Paired(g: Stream, ss: nat, level: nat, expand: nat, alphaPos: nat, alpha: nat, beta: nat, k0: DpfKey,
                   k1: DpfKey) {
    var root0, root1 := Node(k0.mseed, false), Node(k1.mseed, true);
    && !k0.rank && k1.rank && k0.enableEvalAll == k1.enableEvalAll
    && k0.cwsVec == k1.cwsVec && |k0.cwsVec| == level
    && k0.lastCwVec == k1.lastCwVec && |k0.lastCwVec| == expand
    && PathCorrected(g, k0.cwsVec, root0, root1, alpha)
    && var a, b := NodeAt(g, k0.cwsVec, root0, alpha, level), NodeAt(g, k0.cwsVec, root1, alpha, level);
    forall i | 0 <= i < expand ::
      Settles(ss, if i == alphaPos then beta else 0, Value(Chain(g, a.seed, i)), Value(Chain(g, b.seed, i)),
              b.t, k0.lastCwVec[i])
  }

  /** At a leaf's i-th output the two keys' shares sum to beta on alpha's leaf and position, and to zero elsewhere. */
  lemma LeafShares(g: Stream, ss: nat, level: nat, expand: nat, alphaPos: nat, alpha: nat, beta: nat,
                   k0: DpfKey, k1: DpfKey, x: nat, i: nat)
    requires ss <= 64 && i < expand && Paired(g, ss, level, expand, alphaPos, alpha, beta, k0, k1)
    ensures var a := NodeAt(g, k0.cwsVec, Node(k0.mseed, false), x, level);
            var b := NodeAt(g, k1.cwsVec, Node(k1.mseed, true), x, level);
            var out0 := Output(ss, false, Value(Chain(g, a.seed, i)), a.t, k0.lastCwVec[i]);
            var out1 := Output(ss, true, Value(Chain(g, b.seed, i)), b.t, k1.lastCwVec[i]);
            TruncateSs(ss, U128(out0 + out1))
            == if Low(x, level) == Low(alpha, level) && i == alphaPos then Low(beta, ss) else 0
  {
    hide NodeAt, Low, Pow2, AndInt, PathCorrected, Settles, Output, Value, Chain, U128;
    var root0, root1 := Node(k0.mseed, false), Node(k1.mseed, true);
    var a, b := NodeAt(g, k0.cwsVec, root0, x, level), NodeAt(g, k0.cwsVec, root1, x, level);
    LevelInvariant(g, k0.cwsVec, root0, root1, alpha, x, level);
    if Low(x, level) == Low(alpha, level) {
      NodeAtLowBits(g, k0.cwsVec, root0, x, alpha, level);
      NodeAtLowBits(g, k0.cwsVec, root1, x, alpha, level);
    }
    LowSmall(0, ss);
    OutputsSum(ss, if i == alphaPos then beta else 0, Value(Chain(g, a.seed, i)), Value(Chain(g, b.seed, i)),
               a.t, b.t, k0.lastCwVec[i]);
  }

  /** DPF correctness, for every alpha and every x: the shares sum to beta exactly where x and
      alpha agree on the low n bits. */
  lemma PointFunction(g: Stream, ss: nat, n: nat, alpha: nat, beta: nat, k0: DpfKey, k1: DpfKey, x: nat)
    requires ss <= 64 && Paired(g, ss, n, 1, 0, alpha, beta, k0, k1)
    ensures TruncateSs(ss, U128(EvalAt(g, ss, k0, x) + EvalAt(g, ss, k1, x)))
         == if Low(x, n) == Low(alpha, n) then Low(beta, ss) else 0
  {
    hide NodeAt, Low, High, Pow2, AndInt, U128, Output, Value, PathCorrected, Settles;
    LeafShares(g, ss, n, 1, 0, alpha, beta, k0, k1, x, 0);
  }

  /** The same in terms of residues. */
  lemma PointFunctionModulo(g: Stream, ss: nat, n: nat, alpha: nat, beta: nat, k0: DpfKey, k1: DpfKey, x: nat)
    requires ss <= 64 && Paired(g, ss, n, 1, 0, alpha, beta, k0, k1)
    ensures TruncateSs(ss, U128(EvalAt(g, ss, k0, x) + EvalAt(g, ss, k1, x)))
         == if x % Pow2(n) == alpha % Pow2(n) then beta % Pow2(ss) else 0
  {
    hide TruncateSs, U128, EvalAt, Paired, Low, Pow2;
    PointFunction(g, ss, n, alpha, beta, k0, k1, x);
    LowIsMod(x, n);
    LowIsMod(alpha, n);
    LowIsMod(beta, ss);
  }

  /** On the domain the keys are for, that is the point function at alpha. */
  lemma PointFunctionOnDomain(g: Stream, ss: nat, n: nat, alpha: nat, beta: nat, k0: DpfKey, k1: DpfKey, x: nat)
    requires ss <= 64 && Paired(g, ss, n, 1, 0, alpha, beta, k0, k1)
    requires alpha < Pow2(n) && x < Pow2(n)
    ensures TruncateSs(ss, U128(EvalAt(g, ss, k0, x) + EvalAt(g, ss, k1, x)))
         == if x == alpha then Low(beta, ss) else 0
  {
    hide NodeAt, Low, High, Pow2, AndInt, U128, Output, Value, PathCorrected, Settles;
    PointFunction(g, ss, n, alpha, beta, k0, k1, x);
    LowSmall(x, n);
    LowSmall(alpha, n);
  }

  /** Full-domain correctness, for every alpha, every termination level and every x < 2^n. */
  lemma FullDomain(g: Stream, ss: nat, n: nat, level: nat, alpha: nat, beta: nat, k0: DpfKey, k1: DpfKey, x: nat)
    requires ss <= 64 && level <= n && x < Pow2(n)
    requires Paired(g, ss, level, Pow2(n - level), AlphaPos(alpha, level), alpha, beta, k0, k1)
    ensures High(x, level) < Pow2(n - level)
    ensures TruncateSs(ss, U128(EvalAllAt(g, ss, k0, x) + EvalAllAt(g, ss, k1, x)))
         == if Low(x, level) == Low(alpha, level) && High(x, level) == AlphaPos(alpha, level)
            then Low(beta, ss) else 0
  {
    hide NodeAt, Low, High, Pow2, AndInt, U128, Output, Value, PathCorrected, Settles;
    HighBound(x, n, level);
    LeafShares(g, ss, level, Pow2(n - level), AlphaPos(alpha, level), alpha, beta, k0, k1, x, High(x, level));
  }

  /** On the domain, with a position that fits its 32 bits, that is the point function at alpha. */
  lemma FullDomainOnDomain(g: Stream, ss: nat, n: nat, level: nat, alpha: nat, beta: nat, k0: DpfKey, k1: DpfKey,
                           x: nat)
    requires ss <= 64 && level <= n <= level + 32 && alpha < Pow2(n) && x < Pow2(n)
    requires Paired(g, ss, level, Pow2(n - level), AlphaPos(alpha, level), alpha, beta, k0, k1)
    ensures High(x, level) < Pow2(n - level)
    ensures TruncateSs(ss, U128(EvalAllAt(g, ss, k0, x) + EvalAllAt(g, ss, k1, x)))
         == if x == alpha then Low(beta, ss) else 0
  {
    hide NodeAt, Low, High, Pow2, AndInt, U128, Output, Value, PathCorrected, Settles;
    FullDomain(g, ss, n, level, alpha, beta, k0, k1, x);
    HighBound(alpha, n, level);
    Pow2Monotone(n - level, 32);
    Pow2Of32();
    LowHigh(x, level);
    LowHigh(alpha, level);
  }

  /** With no early termination a full-domain key evaluates to what the ordinary key of the same
      alpha, beta and master seeds evaluates to, at every point and for either party. */
  lemma FullDomainAgreesWithEval(g: Stream, ss: nat, n: nat, alpha: nat, beta: nat,
                                 k0: DpfKey, k1: DpfKey, all0: DpfKey, all1: DpfKey, x: nat)
    requires ss <= 64 && alpha < Pow2(n) && x < Pow2(n)
    requires Paired(g, ss, n, 1, 0, alpha, beta, k0, k1)
    requires Paired(g, ss, n, 1, AlphaPos(alpha, n), alpha, beta, all0, all1)
    requires k0.mseed == all0.mseed && k1.mseed == all1.mseed
    ensures High(x, n) == 0
    ensures EvalAllAt(g, ss, all0, x) == EvalAt(g, ss, k0, x)
    ensures EvalAllAt(g, ss, all1, x) == EvalAt(g, ss, k1, x)
  {
    hide NodeAt, Low, High, Pow2, AndInt, U128, Output, Value, PathCorrected, Settles;
    var root0, root1 := Node(k0.mseed, false), Node(k1.mseed, true);
    HighZero(alpha, n);
    HighZero(x, n);
    PathCorrectedUnique(g, k0.cwsVec, all0.cwsVec, root0, root1, alpha, n);
    assert k0.cwsVec == k0.cwsVec[..n] == all0.cwsVec[..n] == all0.cwsVec;
    var a, b := NodeAt(g, k0.cwsVec, root0, alpha, n), NodeAt(g, k0.cwsVec, root1, alpha, n);
    SettlesUnique(ss, beta, Value(Chain(g, a.seed, 0)), Value(Chain(g, b.seed, 0)), b.t, k0.lastCwVec[0], all0.lastCwVec[0]);
  }
}
