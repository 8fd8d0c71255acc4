/** `DpfContext` of yasl/mpctools/dpf: key generation and evaluation as the source runs them,
    proved to meet the specification in module Dpf. */
module DpfScheme {
  import opened Numbers
  import opened Words
  import opened Wrappers
  import opened Dpf

  /** Setting the three parts of a correction word in turn leaves exactly those parts. */
  lemma CwSetters(cw: DpfCW, s: Block, tLeft: bool, tRight: bool)
    ensures var r := cw.SetSeed(s).SetTLeft(tLeft).SetTRight(tRight);
            r.seed == s && r.GetTLeft() == tLeft && r.GetTRight() == tRight && r.tStore < 4
  {
  }

  /** One more corrected level. */
  lemma ExtendPath(g: Stream, cws: seq<DpfCW>, cws': seq<DpfCW>, i: nat, root0: Node, root1: Node, alpha: nat)
    requires i < |cws| == |cws'| && cws'[..i] == cws[..i]
    requires PathCorrected(g, cws[..i], root0, root1, alpha)
    requires Corrects(g, cws'[i], NodeAt(g, cws, root0, alpha, i), NodeAt(g, cws, root1, alpha, i), Bit(alpha, i))
    ensures PathCorrected(g, cws'[..i + 1], root0, root1, alpha)
    ensures NodeAt(g, cws', root0, alpha, i + 1) == Step(g, cws'[i], NodeAt(g, cws, root0, alpha, i), Bit(alpha, i))
    ensures NodeAt(g, cws', root1, alpha, i + 1) == Step(g, cws'[i], NodeAt(g, cws, root1, alpha, i), Bit(alpha, i))
  {
    hide Corrects, Step, Bit;
    NodeAtPrefix(g, cws, cws', root0, alpha, i);
    NodeAtPrefix(g, cws, cws', root1, alpha, i);
    var next := cws'[..i + 1];
    forall j | 0 <= j < i + 1
      ensures Corrects(g, next[j], NodeAt(g, next, root0, alpha, j), NodeAt(g, next, root1, alpha, j), Bit(alpha, j))
    {
      assert next[..j] == cws'[..i][..j] == cws[..i][..j] == cws[..j];
      NodeAtPrefix(g, next, cws, root0, alpha, j);
      NodeAtPrefix(g, next, cws, root1, alpha, j);
      if j < i {
        NodeAtPrefix(g, cws[..i], cws, root0, alpha, j);
        NodeAtPrefix(g, cws[..i], cws, root1, alpha, j);
      }
    }
  }

  /** Truncating a share again changes nothing. */
  lemma TruncateOutput(ss: nat, rank: bool, prg: nat, t: bool, cw: nat)
    requires ss <= 64
    ensures TruncateSs(ss, Output(ss, rank, prg, t, cw)) == Output(ss, rank, prg, t, cw)
  {
    hide AndInt, Pow2, U128, Low;
    OutputResidue(ss, rank, prg, t, cw);
    var v := prg + (if t then cw else 0);
    var w: int := if rank then 0 - v else v;
    TruncateReverse(ss, Low(w, ss));
    LowLow(w, ss, ss);
  }

  /** Below level bits, pos has two children: pos itself and pos with bit `level` set; between
      them they hold every number whose low `level` bits are pos. */
  lemma Children(pos: nat, level: nat)
    requires pos < Pow2(level)
    ensures pos < Pow2(level + 1) && Pow2(level) + pos < Pow2(level + 1)
    ensures !Bit(pos, level) && Bit(Pow2(level) + pos, level)
    ensures Low(pos, level) == Low(Pow2(level) + pos, level) == pos
    ensures forall x: nat :: Low(x, level) == pos <==>
                             Low(x, level + 1) == pos || Low(x, level + 1) == Pow2(level) + pos
  {
    LowSmall(pos, level);
    LowHighJoin(pos, 0, level);
    LowHighJoin(pos, 1, level);
    forall x: nat
      ensures Low(x, level) == pos <==> Low(x, level + 1) == pos || Low(x, level + 1) == Pow2(level) + pos
    {
      hide Low, Bit;
      LowBits(x, level);
      LowBound(x, level);
    }
  }

  /** The cells under a leaf are the numbers pos + (i << level). */
  lemma Cell(x: nat, pos: nat, i: nat, level: nat, n: nat)
    requires pos < Pow2(level) && level <= n
    ensures x == pos + Pow2(level) * i <==> Low(x, level) == pos && High(x, level) == i
    ensures i < Pow2(n - level) ==> pos + Pow2(level) * i < Pow2(n)
  {
    hide Low, High, Pow2;
    LowHigh(x, level);
    LowHighJoin(pos, i, level);
    if i < Pow2(n - level) {
      Pow2Add(level, n - level);
      CellBound(Pow2(level), Pow2(n - level), pos, i);
    }
  }

  lemma CellBound(p: nat, q: nat, pos: nat, i: nat)
    requires pos < p && i < q
    ensures pos + p * i < p * q
  {
    assert p * i + p == p * (i + 1);
    MulMonotone(i + 1, q, p);
  }

  class DpfContext {
    /** The generator every seed is expanded with. */
    const g: Stream
    /** The early-termination formula, of the input and output bit numbers. */
    const termination: (nat, nat) -> nat
    /** The guard on inputs, which compares the input bit number with a natural logarithm. */
    const inRange: (nat, nat) -> bool
    var inBitnum: nat
    var ssBitnum: nat

    constructor (g: Stream, termination: (nat, nat) -> nat, inRange: (nat, nat) -> bool)
      ensures this.g == g && this.termination == termination && this.inRange == inRange
      ensures inBitnum == 64 && ssBitnum == 64
    {
      this.g, this.termination, this.inRange := g, termination, inRange;
      inBitnum := 64;
      ssBitnum := 64;
    }

    method SetInBitNum(n: nat) returns (ok: bool)
      modifies this`inBitnum
      ensures ok == (n <= 64)
      ensures inBitnum == if ok then n else old(inBitnum)
    {
      ok := n <= 64;
      if ok {
        inBitnum := n;
      }
    }

    method SetSsBitNum(n: nat) returns (ok: bool)
      modifies this`ssBitnum
      ensures ok == (n <= 64)
      ensures ssBitnum == if ok then n else old(ssBitnum)
    {
      ok := n <= 64;
      if ok {
        ssBitnum := n;
      }
    }

    /** The number of levels keys have; early termination may cut some, never add any. */
    function GetTerminateLevel(enableEvalAll: bool): (level: nat)
      reads this
      ensures level <= inBitnum && (!enableEvalAll ==> level == inBitnum)
    {
      if !enableEvalAll then inBitnum
      else
        var x := termination(inBitnum, ssBitnum);
        if x < inBitnum then x else inBitnum
    }

    /** The two keys share the point function at alpha. The source's shift by the number of
        cut levels is defined for less than 32 of them. */
    method Gen(alpha: nat, beta: nat, firstMk: Block, secondMk: Block, enableEvalAll: bool)
      returns (r: Result<(DpfKey, DpfKey)>)
      requires inBitnum < GetTerminateLevel(enableEvalAll) + 32
      ensures r.Ok? <==> 0 < inBitnum < 64 && inRange(inBitnum, alpha) && 0 < ssBitnum <= 64
      ensures r.Ok? ==>
                var (k0, k1) := r.value;
                var level := GetTerminateLevel(enableEvalAll);
                && k0.mseed == firstMk && k1.mseed == secondMk && k0.enableEvalAll == enableEvalAll
                && if enableEvalAll
                   then Paired(g, ssBitnum, level, Pow2(inBitnum - level), AlphaPos(alpha, level), alpha, beta, k0, k1)
                   else Paired(g, ssBitnum, inBitnum, 1, 0, alpha, beta, k0, k1)
    {
      hide PathCorrected, AlphaPos, Pow2, NodeAt, Paired, SettlesAt;
      if !(0 < inBitnum < 64 && inRange(inBitnum, alpha) && 0 < ssBitnum <= 64) {
        return Err;
      }
      var level := GetTerminateLevel(enableEvalAll);
      var cws, node0, node1 := GenLevels(alpha, firstMk, secondMk, level);
      var lastCws := GenLast(alpha, beta, node0, node1, level, enableEvalAll);
      var k0 := DpfKey(false, enableEvalAll, cws, lastCws, firstMk);
      var k1 := DpfKey(true, enableEvalAll, cws, lastCws, secondMk);
      if enableEvalAll {
        AssemblePair(k0, k1, level, Pow2(inBitnum - level), AlphaPos(alpha, level), alpha, beta, node0, node1);
      } else {
        AssemblePair(k0, k1, level, 1, 0, alpha, beta, node0, node1);
      }
      return Ok((k0, k1));
    }

    lemma AssemblePair(k0: DpfKey, k1: DpfKey, level: nat, expand: nat, alphaPos: nat, alpha: nat, beta: nat,
                       node0: Node, node1: Node)
      requires !k0.rank && k1.rank && k0.enableEvalAll == k1.enableEvalAll && k0.cwsVec == k1.cwsVec
      requires |k0.cwsVec| == level && k0.lastCwVec == k1.lastCwVec && |k0.lastCwVec| == expand
      requires PathCorrected(g, k0.cwsVec, Node(k0.mseed, false), Node(k1.mseed, true), alpha)
      requires node0 == NodeAt(g, k0.cwsVec, Node(k0.mseed, false), alpha, level)
      requires node1 == NodeAt(g, k0.cwsVec, Node(k1.mseed, true), alpha, level)
      requires forall i | 0 <= i < expand :: SettlesAt(i, alphaPos, beta, node0, node1, k0.lastCwVec[i])
      ensures Paired(g, ssBitnum, level, expand, alphaPos, alpha, beta, k0, k1)
    {
      hide Settles, PathCorrected, Chain, Value, NodeAt;
    }

    /** The loop over the levels: one correction word each, along alpha's path. */
    method GenLevels(alpha: nat, firstMk: Block, secondMk: Block, level: nat)
      returns (cws: seq<DpfCW>, node0: Node, node1: Node)
      ensures |cws| == level && PathCorrected(g, cws, Node(firstMk, false), Node(secondMk, true), alpha)
      ensures node0 == NodeAt(g, cws, Node(firstMk, false), alpha, level)
      ensures node1 == NodeAt(g, cws, Node(secondMk, true), alpha, level)
    {
      hide Bit;
      cws := seq(level, _ => DpfCW(Zero(), 0));
      var seed0: Block, seed1: Block := firstMk, secondMk;
      var t0, t1 := false, true;
      ghost var root0, root1 := Node(firstMk, false), Node(secondMk, true);
      for i := 0 to level
        invariant |cws| == level && PathCorrected(g, cws[..i], root0, root1, alpha)
        invariant Node(seed0, t0) == NodeAt(g, cws, root0, alpha, i)
        invariant Node(seed1, t1) == NodeAt(g, cws, root1, alpha, i)
      {
        var alphaBit := Bit(alpha, i);
        var (seedLeft0, tLeft0, seedRight0, tRight0) := SplitDpfSeed(g, seed0);
        var (seedLeft1, tLeft1, seedRight1, tRight1) := SplitDpfSeed(g, seed1);
        var keep0, keep1 := if alphaBit then seedRight0 else seedLeft0, if alphaBit then seedRight1 else seedLeft1;
        var lose0, lose1 := if alphaBit then seedLeft0 else seedRight0, if alphaBit then seedLeft1 else seedRight1;
        var tKeep0, tKeep1 := if alphaBit then tRight0 else tLeft0, if alphaBit then tRight1 else tLeft1;

        var cwSeed := Xor(lose0, lose1);
        var cwTLeft := (tLeft0 != tLeft1) != !alphaBit;
        var cwTRight := (tRight0 != tRight1) != alphaBit;
        var cwTKeep := if alphaBit then cwTRight else cwTLeft;

        ghost var was := cws;
        CwSetters(cws[i], cwSeed, cwTLeft, cwTRight);
        cws := cws[i := cws[i].SetSeed(cwSeed).SetTLeft(cwTLeft).SetTRight(cwTRight)];
        ExtendPath(g, was, cws, i, root0, root1, alpha);

        seed0 := if t0 then Xor(keep0, cwSeed) else keep0;
        seed1 := if t1 then Xor(keep1, cwSeed) else keep1;
        t0 := tKeep0 != (t0 && cwTKeep);
        t1 := tKeep1 != (t1 && cwTKeep);
      }
      assert cws[..level] == cws;
      node0, node1 := Node(seed0, t0), Node(seed1, t1);
    }

    /** The last correction words: one, or one per output of a leaf. */
    method GenLast(alpha: nat, beta: nat, node0: Node, node1: Node, level: nat, enableEvalAll: bool)
      returns (lastCws: seq<nat>)
      requires ssBitnum <= 64 && level <= inBitnum
      ensures |lastCws| == if enableEvalAll then Pow2(inBitnum - level) else 1
      ensures forall i | 0 <= i < |lastCws| ::
                SettlesAt(i, if enableEvalAll then AlphaPos(alpha, level) else 0, beta, node0, node1, lastCws[i])
    {
      hide Settles, TruncateSs, ReverseSs, Pow2, U128, AlphaPos, Value;
      if !enableEvalAll {
        var prg0, prg1 := DpfPRG(g, node0.seed), DpfPRG(g, node1.seed);
        LastCwSettles(ssBitnum, beta, Value(prg0), Value(prg1));
        var lastCw := TruncateSs(ssBitnum, U128(beta + ReverseSs(ssBitnum, Value(prg0)) + Value(prg1)));
        lastCws := [if node1.t then ReverseSs(ssBitnum, lastCw) else lastCw];
      } else {
        lastCws := GenLastAll(AlphaPos(alpha, level), beta, node0, node1, Pow2(inBitnum - level));
      }
    }

    predicate SettlesAt(i: nat, alphaPos: nat, beta: nat, node0: Node, node1: Node, cw: nat)
      reads this
    {
      Settles(ssBitnum, if i == alphaPos then beta else 0,
              Value(Chain(g, node0.seed, i)), Value(Chain(g, node1.seed, i)), node1.t, cw)
    }

    method GenLastAll(alphaPos: nat, beta: nat, node0: Node, node1: Node, expandNum: nat) returns (lastCws: seq<nat>)
      requires ssBitnum <= 64
      ensures |lastCws| == expandNum
      ensures forall i | 0 <= i < expandNum :: SettlesAt(i, alphaPos, beta, node0, node1, lastCws[i])
    {
      hide Settles, TruncateSs, ReverseSs, U128, Value;
      var prg0: Block, prg1: Block := DpfPRG(g, node0.seed), DpfPRG(g, node1.seed);
      lastCws := [];
      for i := 0 to expandNum
        invariant |lastCws| == i && prg0 == Chain(g, node0.seed, i) && prg1 == Chain(g, node1.seed, i)
        invariant forall j | 0 <= j < i :: SettlesAt(j, alphaPos, beta, node0, node1, lastCws[j])
      {
        var v0, v1 := Value(prg0), Value(prg1);
        var lastCw;
        if i == alphaPos {
          lastCw := TruncateSs(ssBitnum, U128(beta + ReverseSs(ssBitnum, v0) + TruncateSs(ssBitnum, v1)));
          LastCwSettles(ssBitnum, beta, v0, v1);
        } else {
          lastCw := TruncateSs(ssBitnum, U128(ReverseSs(ssBitnum, v0) + TruncateSs(ssBitnum, v1)));
          LastCwSettles(ssBitnum, 0, v0, v1);
        }
        if node1.t {
          lastCw := ReverseSs(ssBitnum, lastCw);
        }
        assert SettlesAt(i, alphaPos, beta, node0, node1, lastCw);
        lastCws := lastCws + [lastCw];
        prg0, prg1 := DpfPRG(g, prg0), DpfPRG(g, prg1);
      }
    }

    /** A party's share of the point function at x. */
    method Eval(key: DpfKey, x: nat) returns (r: Result<nat>)
      requires ssBitnum <= 64 && |key.cwsVec| == inBitnum && |key.lastCwVec| > 0
      ensures r == if inRange(inBitnum, x) && !key.enableEvalAll then Ok(EvalAt(g, ssBitnum, key, x)) else Err
    {
      hide Bit, TruncateSs, ReverseSs, U128, Value;
      if !inRange(inBitnum, x) || key.enableEvalAll {
        return Err;
      }
      var seed, t := key.mseed, key.rank;
      for i := 0 to inBitnum
        invariant Node(seed, t) == NodeAt(g, key.cwsVec, Node(key.mseed, key.rank), x, i)
      {
        var cw := key.cwsVec[i];
        var (seedLeft, tLeft, seedRight, tRight) := SplitDpfSeed(g, seed);
        seedLeft := if t then Xor(seedLeft, cw.seed) else seedLeft;
        tLeft := tLeft != (t && cw.GetTLeft());
        seedRight := if t then Xor(seedRight, cw.seed) else seedRight;
        tRight := tRight != (t && cw.GetTRight());
        if Bit(x, i) {
          seed, t := seedRight, tRight;
        } else {
          seed, t := seedLeft, tLeft;
        }
      }
      var prg := TruncateSs(ssBitnum, Value(DpfPRG(g, seed)));
      var sum := U128(prg + (if t then key.lastCwVec[0] else 0));
      var result := if key.rank then ReverseSs(ssBitnum, sum) else TruncateSs(ssBitnum, sum);
      TruncateOutput(ssBitnum, key.rank, Value(DpfPRG(g, seed)), t, key.lastCwVec[0]);
      return Ok(TruncateSs(ssBitnum, result));
    }

    /** Writes the cells whose low `level` bits are pos, each exactly once, with the party's share
        there. `written` counts the writes. */
    method Traverse(key: DpfKey, result: array<nat>, level: nat, pos: nat, seed: Block, t: bool, termLevel: nat)
      returns (ghost written: multiset<nat>)
      requires ssBitnum <= 64 && level <= termLevel == |key.cwsVec| <= inBitnum
      requires |key.lastCwVec| == Pow2(inBitnum - termLevel)
      requires result.Length == Pow2(inBitnum) && pos < Pow2(level)
      requires Node(seed, t) == NodeAt(g, key.cwsVec, Node(key.mseed, key.rank), pos, level)
      modifies result
      ensures forall x | 0 <= x < result.Length ::
                if Low(x, level) == pos then
                  && written[x] == 1
                  && High(x, termLevel) < |key.lastCwVec| && result[x] == EvalAllAt(g, ssBitnum, key, x)
                else written[x] == 0 && result[x] == old(result[x])
      decreases termLevel - level
    {
      hide Low, High, Bit, Pow2, EvalAllAt;
      Children(pos, level);
      if level < termLevel {
        var cw := key.cwsVec[level];
        var (seedLeft, tLeft, seedRight, tRight) := SplitDpfSeed(g, seed);
        seedLeft := if t then Xor(seedLeft, cw.seed) else seedLeft;
        tLeft := tLeft != (t && cw.GetTLeft());
        seedRight := if t then Xor(seedRight, cw.seed) else seedRight;
        tRight := tRight != (t && cw.GetTRight());

        var nextLeftPos := pos;
        var nextRightPos := Pow2(level) + pos;
        NodeAtLowBits(g, key.cwsVec, Node(key.mseed, key.rank), pos, nextRightPos, level);
        ghost var writtenLeft := Traverse(key, result, level + 1, nextLeftPos, seedLeft, tLeft, termLevel);
        ghost var writtenRight := Traverse(key, result, level + 1, nextRightPos, seedRight, tRight, termLevel);
        written := writtenLeft + writtenRight;
      } else {
        written := WriteLeaf(key, result, pos, seed, t, termLevel);
      }
    }

    /** The outputs of one leaf. */
    method WriteLeaf(key: DpfKey, result: array<nat>, pos: nat, seed: Block, t: bool, termLevel: nat)
      returns (ghost written: multiset<nat>)
      requires ssBitnum <= 64 && termLevel == |key.cwsVec| <= inBitnum
      requires |key.lastCwVec| == Pow2(inBitnum - termLevel)
      requires result.Length == Pow2(inBitnum) && pos < Pow2(termLevel)
      requires Node(seed, t) == NodeAt(g, key.cwsVec, Node(key.mseed, key.rank), pos, termLevel)
      modifies result
      ensures forall x | 0 <= x < result.Length ::
                if Low(x, termLevel) == pos then
                  && written[x] == 1
                  && High(x, termLevel) < |key.lastCwVec| && result[x] == EvalAllAt(g, ssBitnum, key, x)
                else written[x] == 0 && result[x] == old(result[x])
    {
      hide Low, High, Pow2, NodeAt, Output, AndInt, U128, Value, TruncateSs, ReverseSs;
      var prg: Block := DpfPRG(g, seed);
      var expandNum := Pow2(inBitnum - termLevel);
      written := multiset{};
      for i := 0 to expandNum
        invariant prg == Chain(g, seed, i)
        invariant forall x | 0 <= x < result.Length ::
            if Low(x, termLevel) == pos && High(x, termLevel) < i
            then written[x] == 1 && result[x] == LeafOutput(key, seed, t, High(x, termLevel))
            else written[x] == 0 && result[x] == old(result[x])
      {
        var cell := pos + Pow2(termLevel) * i;
        forall x | 0 <= x < result.Length
          ensures x == cell <==> Low(x, termLevel) == pos && High(x, termLevel) == i
        {
          Cell(x, pos, i, termLevel, inBitnum);
        }
        Cell(0, pos, i, termLevel, inBitnum);
        result[cell] := Output(ssBitnum, key.rank, Value(prg), t, key.lastCwVec[i]);
        written := written + multiset{cell};
        prg := DpfPRG(g, prg);
      }
      forall x | 0 <= x < result.Length && Low(x, termLevel) == pos
        ensures High(x, termLevel) < |key.lastCwVec|
        ensures LeafOutput(key, seed, t, High(x, termLevel)) == EvalAllAt(g, ssBitnum, key, x)
      {
        HighBound(x, inBitnum, termLevel);
        LowSmall(pos, termLevel);
        NodeAtLowBits(g, key.cwsVec, Node(key.mseed, key.rank), x, pos, termLevel);
      }
    }

    /** The i-th output of a leaf. */
    ghost function LeafOutput(key: DpfKey, seed: Block, t: bool, i: nat): nat
      requires i < |key.lastCwVec|
      reads this
    {
      Output(ssBitnum, key.rank, Value(Chain(g, seed, i)), t, key.lastCwVec[i])
    }

    /** A party's shares at every point of the domain, each cell written exactly once. */
    method EvalAll(key: DpfKey) returns (r: Result<array<nat>>, ghost written: multiset<nat>)
      requires ssBitnum <= 64 && |key.cwsVec| == GetTerminateLevel(true)
      requires |key.lastCwVec| == Pow2(inBitnum - |key.cwsVec|)
      ensures r.Ok? <==> key.enableEvalAll && inBitnum <= 25
      ensures r.Ok? ==> fresh(r.value) && r.value.Length == Pow2(inBitnum)
      ensures r.Ok? ==> forall x | 0 <= x < r.value.Length ::
                  && written[x] == 1
                  && High(x, |key.cwsVec|) < |key.lastCwVec| && r.value[x] == EvalAllAt(g, ssBitnum, key, x)
    {
      hide Pow2, EvalAllAt, High;
      if !key.enableEvalAll || inBitnum > 25 {
        return Err, multiset{};
      }
      var termLevel := GetTerminateLevel(true);
      var result := new nat[Pow2(inBitnum)](_ => 0);
      Pow2Zero();
      written := Traverse(key, result, 0, 0, key.mseed, key.rank, termLevel);
      r := Ok(result);
    }

    /** A whole run at one point: keys are generated, each party evaluates its own, and the shares
        are added. */
    method SharedPoint(alpha: nat, beta: nat, firstMk: Block, secondMk: Block, x: nat) returns (r: Result<nat>)
      ensures r.Ok? <==> 0 < inBitnum < 64 && 0 < ssBitnum <= 64 && inRange(inBitnum, alpha) && inRange(inBitnum, x)
      ensures r.Ok? && alpha < Pow2(inBitnum) && x < Pow2(inBitnum) ==>
                r.value == if x == alpha then Low(beta, ssBitnum) else 0
    {
      hide TruncateSs, U128, Pow2, EvalAt, AlphaPos, PathCorrected, Settles, Low;
      var keys := Gen(alpha, beta, firstMk, secondMk, false);
      if keys.Err? {
        return Err;
      }
      var (k0, k1) := keys.value;
      var share0 := Eval(k0, x);
      var share1 := Eval(k1, x);
      if share0.Err? || share1.Err? {
        return Err;
      }
      if alpha < Pow2(inBitnum) && x < Pow2(inBitnum) {
        PointFunctionOnDomain(g, ssBitnum, inBitnum, alpha, beta, k0, k1, x);
      }
      return Ok(TruncateSs(ssBitnum, U128(share0.value + share1.value)));
    }

    /** A whole run over the full domain: the two arrays add up cell by cell. */
    method SharedDomain(alpha: nat, beta: nat, firstMk: Block, secondMk: Block) returns (r: Result<array<nat>>)
      ensures r.Ok? <==> 0 < inBitnum <= 25 && 0 < ssBitnum <= 64 && inRange(inBitnum, alpha)
      ensures r.Ok? ==> fresh(r.value) && r.value.Length == Pow2(inBitnum)
      ensures r.Ok? && alpha < Pow2(inBitnum) ==>
                forall x | 0 <= x < r.value.Length :: r.value[x] == if x == alpha then Low(beta, ssBitnum) else 0
    {
      hide TruncateSs, U128, Pow2, EvalAllAt, AlphaPos, PathCorrected, Settles, Low, High;
      if inBitnum > 25 {
        return Err;
      }
      var keys := Gen(alpha, beta, firstMk, secondMk, true);
      if keys.Err? {
        return Err;
      }
      var (k0, k1) := keys.value;
      var level := GetTerminateLevel(true);
      var shares0, written0 := EvalAll(k0);
      var shares1, written1 := EvalAll(k1);
      var a0, a1 := shares0.value, shares1.value;
      var sums := new nat[a0.Length](_ => 0);
      for x := 0 to a0.Length
        invariant forall y | 0 <= y < x :: sums[y] == TruncateSs(ssBitnum, U128(a0[y] + a1[y]))
        modifies sums
      {
        sums[x] := TruncateSs(ssBitnum, U128(a0[x] + a1[x]));
      }
      if alpha < Pow2(inBitnum) {
        forall x | 0 <= x < sums.Length
          ensures sums[x] == if x == alpha then Low(beta, ssBitnum) else 0
        {
          assert written0[x] == written1[x] == 1;
          FullDomainOnDomain(g, ssBitnum, inBitnum, level, alpha, beta, k0, k1, x);
        }
      }
      return Ok(sums);
    }
  }

  lemma Pow2Zero()
    ensures Pow2(0) == 1
  {
  }
}
