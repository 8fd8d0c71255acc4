/** Point-to-point messages of one context (yasl/link/context.cc): the i-th message of a direction
    travels under a key made of its number and the two ranks, and the i-th receive asks for that
    key; the network delivers in any order. */
module P2p {
  import opened Wrappers
  import opened Channel

  // ---- Keys ----

  function Digit(d: nat): char
    requires d < 10
  {
    "0123456789"[d]
  }

  predicate IsDigit(c: char) {
    '0' <= c <= '9'
  }

  predicate Digits(s: string) {
    forall c | c in s :: IsDigit(c)
  }

  /** A number as `fmt` prints it. */
  function Decimal(n: nat): (s: string)
    ensures |s| > 0 && Digits(s)
  {
    if n < 10 then [Digit(n)] else Decimal(n / 10) + [Digit(n % 10)]
  }

  lemma {:induction false} DecimalInjective(m: nat, n: nat)
    requires Decimal(m) == Decimal(n)
    ensures m == n
    decreases m
  {
    assert Decimal(m)[|Decimal(m)| - 1] == Digit(m % 10);
    assert Decimal(n)[|Decimal(n)| - 1] == Digit(n % 10);
    DigitInjective(m % 10, n % 10);
    if m >= 10 && n >= 10 {
      assert Decimal(m)[..|Decimal(m)| - 1] == Decimal(m / 10);
      assert Decimal(n)[..|Decimal(n)| - 1] == Decimal(n / 10);
      DecimalInjective(m / 10, n / 10);
    }
  }

  lemma DigitInjective(d: nat, e: nat)
    requires d < 10 && e < 10 && Digit(d) == Digit(e)
    ensures d == e
  {
  }

  /** Digits end at the first character that is none. */
  lemma SplitUnique(x: string, y: string, c: char, u: string, v: string)
    requires Digits(x) && Digits(y) && !IsDigit(c) && x + [c] + u == y + [c] + v
    ensures x == y && u == v
  {
    var s, t := x + [c] + u, y + [c] + v;
    assert s[|x|] == c == t[|y|];
    assert forall i | 0 <= i < |x| :: s[i] == x[i] && x[i] in x && IsDigit(s[i]);
    assert forall i | 0 <= i < |y| :: t[i] == y[i] && y[i] in y && IsDigit(t[i]);
    assert x == s[..|x|] && y == t[..|y|];
    assert u == s[|x| + 1..] && v == t[|y| + 1..];
  }

  function P2pSuffix(number: nat, src: nat, dst: nat): string {
    Decimal(number) + [':'] + (Decimal(src) + ['-'] + (">" + Decimal(dst)))
  }

  /** `NextP2PId`: "{id}:P2P-{number}:{src}->{dst}". */
  function P2pKey(id: string, number: nat, src: nat, dst: nat): string {
    id + ":P2P-" + P2pSuffix(number, src, dst)
  }

  /** `NextId`, which the collective algorithms put in front of their keys: "{id}:{number}". */
  function EventKey(id: string, number: nat): string {
    id + ":" + Decimal(number)
  }

  /** Within a context a key tells number and direction. */
  lemma P2pKeyInjective(id: string, k: nat, src: nat, dst: nat, k': nat, src': nat, dst': nat)
    requires P2pKey(id, k, src, dst) == P2pKey(id, k', src', dst')
    ensures k == k' && src == src' && dst == dst'
  {
    hide Decimal, Digits;
    var n := |id + ":P2P-"|;
    assert P2pKey(id, k, src, dst)[n..] == P2pSuffix(k, src, dst);
    assert P2pKey(id, k', src', dst')[n..] == P2pSuffix(k', src', dst');
    SplitUnique(Decimal(k), Decimal(k'), ':',
                Decimal(src) + ['-'] + (">" + Decimal(dst)), Decimal(src') + ['-'] + (">" + Decimal(dst')));
    SplitUnique(Decimal(src), Decimal(src'), '-', ">" + Decimal(dst), ">" + Decimal(dst'));
    assert (">" + Decimal(dst))[1..] == Decimal(dst) && (">" + Decimal(dst'))[1..] == Decimal(dst');
    DecimalInjective(k, k');
    DecimalInjective(src, src');
    DecimalInjective(dst, dst');
  }

  /** Different events have different keys, whatever the algorithms append behind the colon. */
  lemma EventKeysDiffer(id: string, m: nat, n: nat, t: string, u: string)
    requires EventKey(id, m) + ":" + t == EventKey(id, n) + ":" + u
    ensures m == n && t == u
  {
    hide Decimal, Digits;
    var a := |id + ":"|;
    assert (EventKey(id, m) + ":" + t)[a..] == Decimal(m) + [':'] + t;
    assert (EventKey(id, n) + ":" + u)[a..] == Decimal(n) + [':'] + u;
    SplitUnique(Decimal(m), Decimal(n), ':', t, u);
    DecimalInjective(m, n);
  }

  /** No key of a collective algorithm, whatever it appends, is the key of a point-to-point message. */
  lemma KeysApart(id: string, number: nat, rest: string, k: nat, src: nat, dst: nat)
    ensures EventKey(id, number) + rest != P2pKey(id, k, src, dst)
  {
    var at := |id| + 1;
    assert (EventKey(id, number) + rest)[at] == Decimal(number)[0];
    assert Decimal(number)[0] in Decimal(number) && IsDigit(Decimal(number)[0]);
    assert P2pKey(id, k, src, dst)[at] == 'P';
  }

  /** The reserved keys are not among them either: they would have to end in a digit. */
  lemma NotReserved(id: string, k: nat, src: nat, dst: nat)
    ensures P2pKey(id, k, src, dst) != ACK_KEY && P2pKey(id, k, src, dst) != FIN_KEY
  {
    var key, d := P2pKey(id, k, src, dst), Decimal(dst);
    assert key[|key| - 1] == d[|d| - 1] && d[|d| - 1] in d;
  }

  /** A counter for every direction of the world, at 0. */
  ghost predicate NoneCounted(counters: map<(nat, nat), nat>, worldSize: nat) {
    forall p: (nat, nat) :: (p in counters <==> p.0 < worldSize && p.1 < worldSize) && (p in counters ==> counters[p] == 0)
  }

  function Counted(counters: map<(nat, nat), nat>, src: nat, dst: nat): map<(nat, nat), nat>
    requires (src, dst) in counters
  {
    counters[(src, dst) := counters[(src, dst)] + 1]
  }

  /** The counters of one party's context. */
  class Context {
    const id: string
    const rank: nat
    var counter: nat
    var p2pCounter: map<(nat, nat), nat>

    constructor (id: string, rank: nat, worldSize: nat)
      ensures this.id == id && this.rank == rank && counter == 0 && NoneCounted(p2pCounter, worldSize)
    {
      this.id, this.rank, counter := id, rank, 0;
      var zeros: map<(nat, nat), nat> := map[];
      for src := 0 to worldSize
        invariant forall p: (nat, nat) :: p in zeros <==> p.0 < src && p.1 < worldSize
        invariant forall p | p in zeros :: zeros[p] == 0
      {
        for dst := 0 to worldSize
          invariant forall p: (nat, nat) :: p in zeros <==> p.1 < worldSize && (p.0 < src || (p.0 == src && p.1 < dst))
          invariant forall p | p in zeros :: zeros[p] == 0
        {
          zeros := zeros[(src, dst) := 0];
        }
      }
      p2pCounter := zeros;
    }

    /** The guards of the source's constructor. */
    static method Create(id: string, rank: nat, worldSize: nat, numChannels: nat) returns (r: Result<Context>)
      ensures r.Ok? <==> rank < worldSize && numChannels == worldSize
      ensures r.Ok? ==>
                && fresh(r.value) && r.value.id == id && r.value.rank == rank
                && r.value.counter == 0 && NoneCounted(r.value.p2pCounter, worldSize)
    {
      if !(rank < worldSize && numChannels == worldSize) {
        return Err;
      }
      var context := new Context(id, rank, worldSize);
      r := Ok(context);
    }

    method NextId() returns (key: string)
      modifies this`counter
      ensures counter == old(counter) + 1 && key == EventKey(id, counter)
    {
      counter := counter + 1;
      key := EventKey(id, counter);
    }

    /** Every call in a direction gives a key never given before. */
    method NextP2PId(src: nat, dst: nat) returns (key: string)
      requires (src, dst) in p2pCounter
      modifies this`p2pCounter
      ensures p2pCounter == Counted(old(p2pCounter), src, dst)
      ensures key == P2pKey(id, p2pCounter[(src, dst)], src, dst)
    {
      p2pCounter := p2pCounter[(src, dst) := p2pCounter[(src, dst)] + 1];
      key := P2pKey(id, p2pCounter[(src, dst)], src, dst);
    }
  }
}
