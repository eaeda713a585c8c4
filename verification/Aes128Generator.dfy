/** What the AES build's generator promises: its counter's period, distinct blocks, and lane symmetry. */
module Aes128Generator {
  import opened Arithmetic
  import opened Aes
  import opened Generator
  import opened Aes128

  /** A 128-bit generator with its counter increment and its key mask. */
  function Ops(inc: Block, mask: Block): BlockOps<Block> {
    BlockOps(16, Repeated(0), inc, AddLanes, Xor, key => Rectify(mask, key), EncRound, DecRound, ToBytes)
  }

  /** wyprimes_vec128_01 and wyprimes_vec128_23. */
  function Inc01(): Block { FromLanes(WYPRIME0, WYPRIME1) }

  function Inc23(): Block { FromLanes(WYPRIME2, WYPRIME3) }

  lemma OpsValid(inc: Block, mask: Block)
    ensures Ops(inc, mask).Valid()
  {
    var ops := Ops(inc, mask);
    assert forall v :: |ops.bytes(v)| == ops.width;
  }

  // The counter

  function Pow2(k: nat): (p: nat)
    ensures p > 0
  {
    if k == 0 then 1 else 2 * Pow2(k - 1)
  }

  /** A product with an odd number has the parity of the other factor. */
  lemma OddParity(d: int, c: int)
    requires c % 2 == 1
    ensures (d * c) % 2 == d % 2
  {
    var x, r, y := d / 2, d % 2, c / 2;
    assert d * c == d * (2 * y + 1);
    assert d * (2 * y + 1) == 2 * (d * y) + 2 * x + r;
  }

  lemma HalfDivides(d: int, c: int, half: int)
    requires c % 2 == 1 && half > 0 && (d * c) % (2 * half) == 0
    ensures d % 2 == 0 && ((d / 2) * c) % half == 0
  {
    var e, q := d / 2, (d * c) / (2 * half);
    DivModParts(d * c, 2 * half);
    MulAssoc(q, 2, half);
    MulAssoc(2, q, half);
    OddParity(d, c);
    MulAssoc(2, e, c);
    DivModUnique(e * c, half, q, 0);
  }

  lemma MultipleOf(d: int, m: int, q: int, c: int)
    requires m > 0 && d == q * m
    ensures d % m == 0 && (d * c) % m == 0
  {
    DivModUnique(d, m, q, 0);
    MulAssoc(c, q, m);
    DivModUnique(d * c, m, c * q, 0);
  }

  /** An odd factor contributes nothing to divisibility by a power of two. */
  lemma {:induction false} OddFactor(d: int, c: int, k: nat)
    requires c % 2 == 1
    ensures (d * c) % Pow2(k) == 0 <==> d % Pow2(k) == 0
    decreases k
  {
    var m := Pow2(k);
    if d % m == 0 {
      DivModParts(d, m);
      MultipleOf(d, m, d / m, c);
    } else if k != 0 && (d * c) % m == 0 {
      var half := Pow2(k - 1);
      HalfDivides(d, c, half);
      OddFactor(d / 2, c, k - 1);
      DivModParts(d / 2, half);
      MulAssoc(2, d / 2 / half, half);
      MulAssoc(d / 2 / half, 2, half);
      MultipleOf(d, m, d / 2 / half, c);
    }
  }

  lemma LaneSizeIsPow2()
    ensures Pow2(64) == LANE_SIZE
  {
    assert Pow2(8) == 256;
    Pow2Add(8, 8);
    assert Pow2(16) == 65536;
    Pow2Add(16, 16);
    assert Pow2(32) == 4294967296;
    Pow2Add(32, 32);
  }

  lemma {:induction false} Pow2Add(a: nat, b: nat)
    ensures Pow2(a + b) == Pow2(a) * Pow2(b)
  {
    if a != 0 {
      Pow2Add(a - 1, b);
      MulAssoc(2, Pow2(a - 1), Pow2(b));
    }
  }

  /** Each lane of the counter is a Weyl sequence modulo 2^64. */
  lemma {:induction false} CtrLanes(ops: BlockOps<Block>, ctr: Block, i: nat)
    requires ops.add == AddLanes
    ensures Lo(CtrAt(ops, ctr, i)) == (Lo(ctr) + i * Lo(ops.inc)) % LANE_SIZE
    ensures Hi(CtrAt(ops, ctr, i)) == (Hi(ctr) + i * Hi(ops.inc)) % LANE_SIZE
  {
    hide Lo, Hi, FromLanes;
    if i == 0 {
      LaneBounds(ctr);
    } else {
      CtrLanes(ops, ctr, i - 1);
      var c := CtrAt(ops, ctr, i - 1);
      LanesOf(Lo(c) + Lo(ops.inc), Hi(c) + Hi(ops.inc));
      WeylStep(Lo(ctr), Lo(ops.inc), i);
      WeylStep(Hi(ctr), Hi(ops.inc), i);
    }
  }

  lemma LaneBounds(a: Block)
    ensures Lo(a) < LANE_SIZE && Hi(a) < LANE_SIZE
  {
    LaneSize();
  }

  lemma WeylStep(start: nat, inc: nat, i: nat)
    requires i > 0
    ensures ((start + (i - 1) * inc) % LANE_SIZE + inc) % LANE_SIZE == (start + i * inc) % LANE_SIZE
  {
    assert i * inc == (i - 1) * inc + inc;
    ModAdd(start + (i - 1) * inc, inc, LANE_SIZE);
  }

  /** Two terms of a Weyl sequence with an odd increment agree just when their indices do, modulo 2^64. */
  lemma WeylInjective(start: nat, inc: nat, i: nat, j: nat)
    requires inc % 2 == 1
    ensures (start + i * inc) % LANE_SIZE == (start + j * inc) % LANE_SIZE <==> i % LANE_SIZE == j % LANE_SIZE
  {
    ModEqual(start + i * inc, start + j * inc, LANE_SIZE);
    ModEqual(i, j, LANE_SIZE);
    assert (start + i * inc) - (start + j * inc) == (i - j) * inc;
    LaneSizeIsPow2();
    OddFactor(i - j, inc, 64);
  }

  /** With odd increments the counter takes a value again after exactly 2^64 steps. */
  lemma CtrPeriod(ops: BlockOps<Block>, ctr: Block, i: nat, j: nat)
    requires ops.add == AddLanes && Lo(ops.inc) % 2 == 1 && Hi(ops.inc) % 2 == 1
    ensures CtrAt(ops, ctr, i) == CtrAt(ops, ctr, j) <==> i % LANE_SIZE == j % LANE_SIZE
  {
    hide Lo, Hi, CtrAt;
    CtrLanes(ops, ctr, i);
    CtrLanes(ops, ctr, j);
    WeylInjective(Lo(ctr), Lo(ops.inc), i, j);
    WeylInjective(Hi(ctr), Hi(ops.inc), i, j);
    if i % LANE_SIZE == j % LANE_SIZE {
      LanesInjective(CtrAt(ops, ctr, i), CtrAt(ops, ctr, j));
    }
  }

  /** Which prime steps which lane: all four are odd, as CtrPeriod requires, and no two lanes share one. */
  lemma IncrementsOdd()
    ensures Lo(Inc01()) == WYPRIME0 && Hi(Inc01()) == WYPRIME1
    ensures Lo(Inc23()) == WYPRIME2 && Hi(Inc23()) == WYPRIME3
    ensures Lo(Inc01()) % 2 == 1 && Hi(Inc01()) % 2 == 1
    ensures Lo(Inc23()) % 2 == 1 && Hi(Inc23()) % 2 == 1
    ensures |{Lo(Inc01()), Hi(Inc01()), Lo(Inc23()), Hi(Inc23())}| == 4
  {
    hide Lo, Hi, FromLanes;
    LanesOf(WYPRIME0, WYPRIME1);
    LanesOf(WYPRIME2, WYPRIME3);
  }

  /** The counter after i steps, lane by lane. */
  lemma CtrIs(ops: BlockOps<Block>, ctr: Block, i: nat)
    requires ops.add == AddLanes
    ensures i * Lo(ops.inc) >= 0 && i * Hi(ops.inc) >= 0
    ensures CtrAt(ops, ctr, i) == FromLanes(Lo(ctr) + i * Lo(ops.inc), Hi(ctr) + i * Hi(ops.inc))
  {
    hide Lo, Hi, FromLanes, CtrAt;
    MulLe(0, i, Lo(ops.inc));
    MulLe(0, i, Hi(ops.inc));
    CtrLanes(ops, ctr, i);
    LanesOf(Lo(ctr) + i * Lo(ops.inc), Hi(ctr) + i * Hi(ops.inc));
    LanesInjective(CtrAt(ops, ctr, i), FromLanes(Lo(ctr) + i * Lo(ops.inc), Hi(ctr) + i * Hi(ops.inc)));
  }

  // The cipher is a permutation

  ghost predicate HasAesRounds(p: Params<Block>) {
    p.ops.encRound == EncRound && p.ops.decRound == DecRound
  }

  lemma RoundInjective(p: Params<Block>, a: Block, b: Block, key: Block)
    requires HasAesRounds(p)
    ensures Round(p, a, key) == Round(p, b, key) <==> a == b
  {
    hide EncRound, DecRound, UndoEncRound, UndoDecRound;
    EncRoundPermutes(a, key);
    EncRoundPermutes(b, key);
    DecRoundPermutes(a, key);
    DecRoundPermutes(b, key);
  }

  lemma {:induction false} RoundsInjective(p: Params<Block>, a: Block, b: Block, key: Block, n: nat)
    requires HasAesRounds(p)
    ensures Rounds(p, a, key, n) == Rounds(p, b, key, n) <==> a == b
  {
    hide Round;
    if n != 0 {
      RoundInjective(p, Rounds(p, a, key, n - 1), Rounds(p, b, key, n - 1), key);
      RoundsInjective(p, a, b, key, n - 1);
    }
  }

  /** Whatever the keys, the number of keys and the rounds per key, distinct blocks encipher to distinct blocks. */
  lemma {:induction false} CipherInjective(p: Params<Block>, a: Block, b: Block, keys: seq<Block>)
    requires HasAesRounds(p)
    ensures Cipher(p, a, keys) == Cipher(p, b, keys) <==> a == b
  {
    hide Rounds;
    if |keys| != 0 {
      var most, last := keys[..|keys| - 1], keys[|keys| - 1];
      RoundsInjective(p, Cipher(p, a, most), Cipher(p, b, most), last, p.roundsPerKey);
      CipherInjective(p, a, b, most);
    }
  }

  /** The inverse of one round in the chosen direction. */
  function UndoRound(p: Params<Block>, y: Block, key: Block): Block {
    if p.enc then UndoEncRound(y, key) else UndoDecRound(y, key)
  }

  function UndoRounds(p: Params<Block>, y: Block, key: Block, n: nat): Block
    decreases n
  {
    if n == 0 then y else UndoRounds(p, UndoRound(p, y, key), key, n - 1)
  }

  function UndoCipher(p: Params<Block>, y: Block, keys: seq<Block>): Block
    decreases |keys|
  {
    if |keys| == 0 then y
    else UndoCipher(p, UndoRounds(p, y, keys[|keys| - 1], p.roundsPerKey), keys[..|keys| - 1])
  }

  lemma {:induction false} RoundsRoundTrip(p: Params<Block>, a: Block, key: Block, n: nat)
    requires HasAesRounds(p)
    ensures UndoRounds(p, Rounds(p, a, key, n), key, n) == a
    ensures Rounds(p, UndoRounds(p, a, key, n), key, n) == a
    decreases n
  {
    hide EncRound, DecRound, UndoEncRound, UndoDecRound;
    if n != 0 {
      var x := Rounds(p, a, key, n - 1);
      EncRoundPermutes(x, key);
      DecRoundPermutes(x, key);
      RoundsRoundTrip(p, a, key, n - 1);
      EncRoundPermutes(a, key);
      DecRoundPermutes(a, key);
      RoundsRoundTrip(p, UndoRound(p, a, key), key, n - 1);
    }
  }

  /** Every cipher the generator can use is a permutation of the blocks: it is one to one and reaches every block. */
  lemma {:induction false} CipherPermutes(p: Params<Block>, a: Block, keys: seq<Block>)
    requires HasAesRounds(p)
    ensures UndoCipher(p, Cipher(p, a, keys), keys) == a
    ensures Cipher(p, UndoCipher(p, a, keys), keys) == a
    decreases |keys|
  {
    hide Rounds, UndoRounds;
    if |keys| != 0 {
      var most, last := keys[..|keys| - 1], keys[|keys| - 1];
      RoundsRoundTrip(p, Cipher(p, a, most), last, p.roundsPerKey);
      CipherPermutes(p, a, most);
      RoundsRoundTrip(p, a, last, p.roundsPerKey);
      CipherPermutes(p, UndoRounds(p, a, last, p.roundsPerKey), most);
    }
  }

  /** Without Davies-Meyer, outputs i and j of one seeding are the same block just when i and j agree modulo 2^64. */
  lemma OutputsDistinct(p: Params<Block>, g: Prng<Block>, i: nat, j: nat)
    requires HasAesRounds(p) && !p.dm && p.ops.add == AddLanes
    requires Lo(p.ops.inc) % 2 == 1 && Hi(p.ops.inc) % 2 == 1
    ensures Output(p, g.keys, CtrAt(p.ops, g.ctr, i)) == Output(p, g.keys, CtrAt(p.ops, g.ctr, j))
            <==> i % LANE_SIZE == j % LANE_SIZE
  {
    hide Lo, Hi, Cipher, CtrAt;
    CtrPeriod(p.ops, g.ctr, i, j);
    CipherInjective(p, CtrAt(p.ops, g.ctr, i), CtrAt(p.ops, g.ctr, j), g.keys);
  }

  /** The two modes differ by the counter: block i with Davies-Meyer, xor block i without, is the counter of block i. */
  lemma DaviesMeyerIsCounter(p: Params<Block>, q: Params<Block>, g: Prng<Block>, n: nat, i: nat)
    requires p.ops.xor == Xor && p.dm && !q.dm && q == p.(dm := false) && i < n
    ensures |Fill(p, g, n).0| == |Fill(q, g, n).0| == n
    ensures Xor(Fill(p, g, n).0[i], Fill(q, g, n).0[i]) == CtrAt(p.ops, g.ctr, i)
  {
    hide Fill, CtrAt, Xor;
    DaviesMeyerFeedsForward(p, q, g, n, i);
    XorLaws(CtrAt(p.ops, g.ctr, i), Fill(q, g, n).0[i]);
  }

  // Lane symmetry

  function SwapKeys(keys: seq<Block>): (s: seq<Block>)
    ensures |s| == |keys| && forall i | 0 <= i < |keys| :: s[i] == SwapLanes(keys[i])
  {
    seq(|keys|, i requires 0 <= i < |keys| => SwapLanes(keys[i]))
  }

  lemma {:induction false} RoundsSwap(p: Params<Block>, a: Block, key: Block, n: nat)
    requires HasAesRounds(p)
    ensures Rounds(p, SwapLanes(a), SwapLanes(key), n) == SwapLanes(Rounds(p, a, key, n))
  {
    hide EncRound, DecRound, SwapLanes;
    if n != 0 {
      RoundsSwap(p, a, key, n - 1);
      RoundSwaps(Rounds(p, a, key, n - 1), key);
    }
  }

  lemma {:induction false} CipherSwaps(p: Params<Block>, a: Block, keys: seq<Block>)
    requires HasAesRounds(p)
    ensures Cipher(p, SwapLanes(a), SwapKeys(keys)) == SwapLanes(Cipher(p, a, keys))
  {
    hide Rounds, SwapLanes;
    if |keys| != 0 {
      var most, last := keys[..|keys| - 1], keys[|keys| - 1];
      assert SwapKeys(keys)[..|keys| - 1] == SwapKeys(most);
      CipherSwaps(p, a, most);
      RoundsSwap(p, Cipher(p, a, most), last, p.roundsPerKey);
    }
  }

  /** Swapping the lanes of the counter and of every key swaps the lanes of the output, in all four modes. */
  lemma OutputSwaps(p: Params<Block>, keys: seq<Block>, ctr: Block)
    requires HasAesRounds(p) && p.ops.xor == Xor
    ensures Output(p, SwapKeys(keys), SwapLanes(ctr)) == SwapLanes(Output(p, keys, ctr))
  {
    hide Cipher, SwapLanes, Xor, SwapKeys;
    CipherSwaps(p, ctr, keys);
    SwapLanesLaws(Cipher(p, ctr, keys), ctr);
  }

  /** The defect that rectification removes: with lanes equal in every key, swapped counters give swapped outputs. */
  lemma EqualLanesDefect(p: Params<Block>, keys: seq<Block>, ctr: Block)
    requires HasAesRounds(p) && p.ops.xor == Xor
    requires forall i | 0 <= i < |keys| :: LanesEqual(keys[i])
    ensures Output(p, keys, SwapLanes(ctr)) == SwapLanes(Output(p, keys, ctr))
  {
    forall i | 0 <= i < |keys|
      ensures SwapLanes(keys[i]) == keys[i]
    {
      SwapLanesLaws(keys[i], keys[i]);
    }
    assert SwapKeys(keys) == keys;
    OutputSwaps(p, keys, ctr);
  }

  /** After any seeding every key has unequal lanes, and so no round commutes with the lane swap at any block. */
  lemma SeededKeysBreakSymmetry(inc: Block, mask: Block, p: Params<Block>, d: Draw<Block>, i: nat, a: Block)
    requires p.ops == Ops(inc, mask) && !LanesEqual(mask) && i < |d.keys|
    ensures var key := Seeded(p, d).keys[i];
            !LanesEqual(key) && Round(p, SwapLanes(a), key) != SwapLanes(Round(p, a, key))
  {
    hide LanesEqual, Rectify, EncRound, DecRound, SwapLanes;
    RectifyLaws(mask, d.keys[i]);
    RoundCommutesWithSwap(a, Seeded(p, d).keys[i]);
  }
}
