/** The 256-bit vectors of the VAES build, and the proof that its generator is two AES generators side by side. */
module Aes256 {
  import opened Bytes
  import opened Aes
  import opened Generator
  import opened Aes128
  import opened Aes128Generator

  datatype Vec256 = Vec256(lo: Block, hi: Block)

  function Xor256(a: Vec256, b: Vec256): Vec256 {
    Vec256(Xor(a.lo, b.lo), Xor(a.hi, b.hi))
  }

  function And256(a: Vec256, b: Vec256): Vec256 {
    Vec256(And(a.lo, b.lo), And(a.hi, b.hi))
  }

  /** _mm256_add_epi64. */
  function AddLanes256(a: Vec256, b: Vec256): Vec256 {
    Vec256(AddLanes(a.lo, b.lo), AddLanes(a.hi, b.hi))
  }

  /** _mm256_aesenc_epi128. */
  function EncRound256(a: Vec256, key: Vec256): Vec256 {
    Vec256(EncRound(a.lo, key.lo), EncRound(a.hi, key.hi))
  }

  /** _mm256_aesdec_epi128. */
  function DecRound256(a: Vec256, key: Vec256): Vec256 {
    Vec256(DecRound(a.lo, key.lo), DecRound(a.hi, key.hi))
  }

  function ToBytes256(a: Vec256): (s: seq<Byte>)
    ensures |s| == 32
  {
    ToBytes(a.lo) + ToBytes(a.hi)
  }

  /** rectify_key_256: the shuffle swaps lanes within each half, and one masked xor covers the whole vector. */
  function Rectify256(mask: Vec256, key: Vec256): Vec256 {
    var swapped := Vec256(SwapLanes(key.lo), SwapLanes(key.hi));
    var equalMask := Vec256(EqualMask(key.lo, swapped.lo), EqualMask(key.hi, swapped.hi));
    Xor256(key, And256(equalMask, mask))
  }

  function KeyMask256(): Vec256 { Vec256(KeyMask01(), KeyMask23()) }

  /** wyprimes_vec256. */
  function Inc256(): Vec256 { Vec256(Inc01(), Inc23()) }

  function Ops256(): BlockOps<Vec256> {
    BlockOps(32, Vec256(Repeated(0), Repeated(0)), Inc256(), AddLanes256, Xor256,
             key => Rectify256(KeyMask256(), key), EncRound256, DecRound256, ToBytes256)
  }

  lemma Ops256Valid()
    ensures Ops256().Valid()
  {
    hide Inc256, KeyMask256;
    var ops := Ops256();
    assert forall v :: |ops.bytes(v)| == ops.width;
  }

  /** The operations of the generator on the low halves, and of the one on the high halves. */
  function OpsLo(): BlockOps<Block> { Ops(Inc01(), KeyMask01()) }

  function OpsHi(): BlockOps<Block> { Ops(Inc23(), KeyMask23()) }

  /** A generator of the VAES build and its two halves agree on mode, keys and rounds. */
  ghost predicate Halves(p: Params<Vec256>, pLo: Params<Block>, pHi: Params<Block>) {
    && p.ops == Ops256() && pLo.ops == OpsLo() && pHi.ops == OpsHi()
    && pLo == Params(OpsLo(), p.enc, p.dm, p.numKeys, p.roundsPerKey)
    && pHi == Params(OpsHi(), p.enc, p.dm, p.numKeys, p.roundsPerKey)
  }

  function LoAll(vs: seq<Vec256>): (s: seq<Block>)
    ensures |s| == |vs| && forall i | 0 <= i < |vs| :: s[i] == vs[i].lo
  {
    seq(|vs|, i requires 0 <= i < |vs| => vs[i].lo)
  }

  function HiAll(vs: seq<Vec256>): (s: seq<Block>)
    ensures |s| == |vs| && forall i | 0 <= i < |vs| :: s[i] == vs[i].hi
  {
    seq(|vs|, i requires 0 <= i < |vs| => vs[i].hi)
  }

  function LoDraw(d: Draw<Vec256>): Draw<Block> { Draw(LoAll(d.keys), d.ctr.lo) }

  function HiDraw(d: Draw<Vec256>): Draw<Block> { Draw(HiAll(d.keys), d.ctr.hi) }

  /** What the two halves' operations have to do with those of the whole. */
  lemma HalvesOps(p: Params<Vec256>, pLo: Params<Block>, pHi: Params<Block>)
    requires Halves(p, pLo, pHi)
    ensures p.ops.encRound == EncRound256 && p.ops.decRound == DecRound256
    ensures p.ops.add == AddLanes256 && p.ops.xor == Xor256 && p.ops.bytes == ToBytes256
    ensures p.ops.inc == Inc256() && p.ops.width == 32
    ensures forall key :: p.ops.rectify(key) == Rectify256(KeyMask256(), key)
    ensures HasAesRounds(pLo) && HasAesRounds(pHi)
    ensures pLo.ops.add == AddLanes && pLo.ops.xor == Xor && pLo.ops.bytes == ToBytes && pLo.ops.inc == Inc01()
    ensures pHi.ops.add == AddLanes && pHi.ops.xor == Xor && pHi.ops.bytes == ToBytes && pHi.ops.inc == Inc23()
    ensures pLo.ops.width == 16 && pHi.ops.width == 16
    ensures forall key :: pLo.ops.rectify(key) == Rectify(KeyMask01(), key)
    ensures forall key :: pHi.ops.rectify(key) == Rectify(KeyMask23(), key)
    ensures p.enc == pLo.enc == pHi.enc && p.dm == pLo.dm == pHi.dm
    ensures p.numKeys == pLo.numKeys == pHi.numKeys
    ensures p.roundsPerKey == pLo.roundsPerKey == pHi.roundsPerKey
  {
    hide EncRound, DecRound, Rectify, Rectify256, KeyMask01, KeyMask23, KeyMask256, Inc01, Inc23, Inc256;
  }

  lemma RoundHalves(p: Params<Vec256>, pLo: Params<Block>, pHi: Params<Block>, a: Vec256, key: Vec256)
    requires Halves(p, pLo, pHi)
    ensures Round(p, a, key) == Vec256(Round(pLo, a.lo, key.lo), Round(pHi, a.hi, key.hi))
  {
    HalvesOps(p, pLo, pHi);
    hide EncRound, DecRound, OpsLo, OpsHi, Ops256, Halves;
  }

  lemma {:induction false} RoundsHalves(p: Params<Vec256>, pLo: Params<Block>, pHi: Params<Block>, a: Vec256,
                                      key: Vec256, n: nat)
    requires Halves(p, pLo, pHi)
    ensures Rounds(p, a, key, n) == Vec256(Rounds(pLo, a.lo, key.lo, n), Rounds(pHi, a.hi, key.hi, n))
  {
    hide Round, Halves;
    if n != 0 {
      RoundHalves(p, pLo, pHi, Rounds(p, a, key, n - 1), key);
      RoundsHalves(p, pLo, pHi, a, key, n - 1);
    }
  }

  lemma {:induction false} CipherHalves(p: Params<Vec256>, pLo: Params<Block>, pHi: Params<Block>, a: Vec256,
                                      keys: seq<Vec256>)
    requires Halves(p, pLo, pHi)
    ensures Cipher(p, a, keys) == Vec256(Cipher(pLo, a.lo, LoAll(keys)), Cipher(pHi, a.hi, HiAll(keys)))
    decreases |keys|
  {
    hide Rounds, Ops256, OpsLo, OpsHi;
    if |keys| != 0 {
      var most, last := keys[..|keys| - 1], keys[|keys| - 1];
      assert LoAll(keys)[..|keys| - 1] == LoAll(most) && HiAll(keys)[..|keys| - 1] == HiAll(most);
      CipherHalves(p, pLo, pHi, a, most);
      RoundsHalves(p, pLo, pHi, Cipher(p, a, most), last, p.roundsPerKey);
    }
  }

  lemma OutputHalves(p: Params<Vec256>, pLo: Params<Block>, pHi: Params<Block>, keys: seq<Vec256>, ctr: Vec256)
    requires Halves(p, pLo, pHi)
    ensures Output(p, keys, ctr) == Vec256(Output(pLo, LoAll(keys), ctr.lo), Output(pHi, HiAll(keys), ctr.hi))
  {
    hide Cipher, Xor;
    CipherHalves(p, pLo, pHi, ctr, keys);
  }

  lemma StepHalves(p: Params<Vec256>, pLo: Params<Block>, pHi: Params<Block>, v: Vec256)
    requires Halves(p, pLo, pHi)
    ensures p.ops.add(v, p.ops.inc) == Vec256(pLo.ops.add(v.lo, pLo.ops.inc), pHi.ops.add(v.hi, pHi.ops.inc))
  {
    hide AddLanes, Ops256, OpsLo, OpsHi, Inc01, Inc23, Halves;
    HalvesOps(p, pLo, pHi);
  }

  lemma {:induction false} CtrHalves(p: Params<Vec256>, pLo: Params<Block>, pHi: Params<Block>, ctr: Vec256, i: nat)
    requires Halves(p, pLo, pHi)
    ensures CtrAt(p.ops, ctr, i) == Vec256(CtrAt(pLo.ops, ctr.lo, i), CtrAt(pHi.ops, ctr.hi, i))
  {
    hide Halves;
    if i != 0 {
      CtrHalves(p, pLo, pHi, ctr, i - 1);
      StepHalves(p, pLo, pHi, CtrAt(p.ops, ctr, i - 1));
    }
  }

  /** rectify_key_256 rectifies each half on its own, the low one as rectify_key_128 does. */
  lemma RectifyHalves(mask: Vec256, key: Vec256)
    ensures Rectify256(mask, key) == Vec256(Rectify(mask.lo, key.lo), Rectify(mask.hi, key.hi))
  {
    hide Xor, And, EqualMask, SwapLanes;
  }

  lemma SeededHalves(p: Params<Vec256>, pLo: Params<Block>, pHi: Params<Block>, d: Draw<Vec256>)
    requires Halves(p, pLo, pHi)
    ensures LoAll(Seeded(p, d).keys) == Seeded(pLo, LoDraw(d)).keys
    ensures HiAll(Seeded(p, d).keys) == Seeded(pHi, HiDraw(d)).keys
  {
    hide Rectify, Rectify256, KeyMask01, KeyMask23;
    forall i | 0 <= i < |d.keys|
      ensures Seeded(p, d).keys[i] == Vec256(Seeded(pLo, LoDraw(d)).keys[i], Seeded(pHi, HiDraw(d)).keys[i])
    {
      RectifyHalves(KeyMask256(), d.keys[i]);
    }
  }

  /** Output i of a seeded VAES generator is output i of the two AES generators seeded with the halves of its draw. */
  lemma OutputIsTwoOutputs(p: Params<Vec256>, pLo: Params<Block>, pHi: Params<Block>, d: Draw<Vec256>, i: nat)
    requires Halves(p, pLo, pHi)
    ensures var g, gLo, gHi := Seeded(p, d), Seeded(pLo, LoDraw(d)), Seeded(pHi, HiDraw(d));
            Output(p, g.keys, CtrAt(p.ops, g.ctr, i)) ==
            Vec256(Output(pLo, gLo.keys, CtrAt(pLo.ops, gLo.ctr, i)), Output(pHi, gHi.keys, CtrAt(pHi.ops, gHi.ctr, i)))
  {
    hide Output, CtrAt;
    var g := Seeded(p, d);
    SeededHalves(p, pLo, pHi, d);
    CtrHalves(p, pLo, pHi, g.ctr, i);
    OutputHalves(p, pLo, pHi, g.keys, CtrAt(p.ops, g.ctr, i));
  }

  /** One reseed and any number of fills are those of two independent AES generators, half by half. */
  lemma VaesIsTwoAes(p: Params<Vec256>, pLo: Params<Block>, pHi: Params<Block>, d: Draw<Vec256>, n: nat)
    requires Halves(p, pLo, pHi)
    ensures var (blocks, g) := Fill(p, Seeded(p, d), n);
            var (los, gLo) := Fill(pLo, Seeded(pLo, LoDraw(d)), n);
            var (his, gHi) := Fill(pHi, Seeded(pHi, HiDraw(d)), n);
            && LoAll(blocks) == los && HiAll(blocks) == his
            && LoAll(g.keys) == gLo.keys && HiAll(g.keys) == gHi.keys
            && g.ctr == Vec256(gLo.ctr, gHi.ctr)
  {
    hide Halves, Seeded, Output, CtrAt;
    FillAt(p, Seeded(p, d), n);
    FillAt(pLo, Seeded(pLo, LoDraw(d)), n);
    FillAt(pHi, Seeded(pHi, HiDraw(d)), n);
    SeededHalves(p, pLo, pHi, d);
    CtrHalves(p, pLo, pHi, d.ctr, n);
    forall i | 0 <= i < n
      ensures var b := Fill(p, Seeded(p, d), n).0[i];
              b.lo == Fill(pLo, Seeded(pLo, LoDraw(d)), n).0[i] && b.hi == Fill(pHi, Seeded(pHi, HiDraw(d)), n).0[i]
    {
      OutputIsTwoOutputs(p, pLo, pHi, d, i);
    }
  }

  /** In the VAES build too, half by half. */
  lemma DaviesMeyerIsCounter256(p: Params<Vec256>, q: Params<Vec256>, g: Prng<Vec256>, n: nat, i: nat)
    requires p.ops == Ops256() && p.dm && !q.dm && q == p.(dm := false) && i < n
    ensures |Fill(p, g, n).0| == |Fill(q, g, n).0| == n
    ensures var x, y, c := Fill(p, g, n).0[i], Fill(q, g, n).0[i], CtrAt(p.ops, g.ctr, i);
            Xor(x.lo, y.lo) == c.lo && Xor(x.hi, y.hi) == c.hi
  {
    hide Fill, CtrAt, Xor;
    DaviesMeyerFeedsForward(p, q, g, n, i);
    var y, c := Fill(q, g, n).0[i], CtrAt(p.ops, g.ctr, i);
    XorLaws(c.lo, y.lo);
    XorLaws(c.hi, y.hi);
  }

  /** Without Davies-Meyer, equal low halves, like equal high halves, mean that the outputs are 2^64 steps apart. */
  lemma HalvesDistinct(p: Params<Vec256>, pLo: Params<Block>, pHi: Params<Block>, d: Draw<Vec256>, i: nat, j: nat)
    requires Halves(p, pLo, pHi) && !p.dm
    ensures var g := Seeded(p, d);
            var (x, y) := (Output(p, g.keys, CtrAt(p.ops, g.ctr, i)), Output(p, g.keys, CtrAt(p.ops, g.ctr, j)));
            && (x.lo == y.lo <==> i % LANE_SIZE == j % LANE_SIZE)
            && (x.hi == y.hi <==> i % LANE_SIZE == j % LANE_SIZE)
  {
    hide Output, CtrAt, Lo, Hi, Inc01, Inc23;
    OutputIsTwoOutputs(p, pLo, pHi, d, i);
    OutputIsTwoOutputs(p, pLo, pHi, d, j);
    IncrementsOdd();
    OutputsDistinct(pLo, Seeded(pLo, LoDraw(d)), i, j);
    OutputsDistinct(pHi, Seeded(pHi, HiDraw(d)), i, j);
  }

  /**
   Across halves: when the rectified key halves agree, equal counter halves give equal output halves; and without
   Davies-Meyer the low half of output i is the high half of output j only then, which is for two congruences
   modulo 2^64 on the counters drawn.
   */
  lemma HalvesCoincide(p: Params<Vec256>, pLo: Params<Block>, pHi: Params<Block>, d: Draw<Vec256>, i: nat, j: nat)
    requires Halves(p, pLo, pHi)
    requires LoAll(Seeded(p, d).keys) == HiAll(Seeded(p, d).keys)
    ensures var g := Seeded(p, d);
            var x, y := Output(p, g.keys, CtrAt(p.ops, g.ctr, i)).lo, Output(p, g.keys, CtrAt(p.ops, g.ctr, j)).hi;
            var meet := && (Lo(d.ctr.lo) + i * WYPRIME0) % LANE_SIZE == (Lo(d.ctr.hi) + j * WYPRIME2) % LANE_SIZE
                        && (Hi(d.ctr.lo) + i * WYPRIME1) % LANE_SIZE == (Hi(d.ctr.hi) + j * WYPRIME3) % LANE_SIZE;
            (meet ==> x == y) && (!p.dm ==> (x == y <==> meet))
  {
    hide CtrAt, Cipher, Lo, Hi, Inc01, Inc23, Seeded, Halves, Xor;
    var g, gLo, gHi := Seeded(p, d), Seeded(pLo, LoDraw(d)), Seeded(pHi, HiDraw(d));
    OutputIsTwoOutputs(p, pLo, pHi, d, i);
    OutputIsTwoOutputs(p, pLo, pHi, d, j);
    SeededHalves(p, pLo, pHi, d);
    HalvesOps(p, pLo, pHi);
    CountersMeet(pLo.ops, pHi.ops, d.ctr.lo, d.ctr.hi, i, j);
    var a, b := CtrAt(pLo.ops, d.ctr.lo, i), CtrAt(pHi.ops, d.ctr.hi, j);
    SameCipher(pLo, pHi, b, gLo.keys);
    CipherInjective(pLo, a, b, gLo.keys);
  }

  lemma CountersMeet(lo: BlockOps<Block>, hi: BlockOps<Block>, a: Block, b: Block, i: nat, j: nat)
    requires lo.add == AddLanes && hi.add == AddLanes && lo.inc == Inc01() && hi.inc == Inc23()
    ensures CtrAt(lo, a, i) == CtrAt(hi, b, j) <==>
            && (Lo(a) + i * WYPRIME0) % LANE_SIZE == (Lo(b) + j * WYPRIME2) % LANE_SIZE
            && (Hi(a) + i * WYPRIME1) % LANE_SIZE == (Hi(b) + j * WYPRIME3) % LANE_SIZE
  {
    hide CtrAt, Lo, Hi, Inc01, Inc23;
    IncrementsOdd();
    CtrLanes(lo, a, i);
    CtrLanes(hi, b, j);
    if Lo(CtrAt(lo, a, i)) == Lo(CtrAt(hi, b, j)) && Hi(CtrAt(lo, a, i)) == Hi(CtrAt(hi, b, j)) {
      LanesInjective(CtrAt(lo, a, i), CtrAt(hi, b, j));
    }
  }

  /** Keys whose halves agree, and need no rectifying, stay so through a reseed. */
  lemma EqualHalvesStay(p: Params<Vec256>, pLo: Params<Block>, pHi: Params<Block>, d: Draw<Vec256>)
    requires Halves(p, pLo, pHi)
    requires forall i | 0 <= i < |d.keys| :: d.keys[i].lo == d.keys[i].hi && !LanesEqual(d.keys[i].lo)
    ensures LoAll(Seeded(p, d).keys) == HiAll(Seeded(p, d).keys)
  {
    hide Rectify, LanesEqual, KeyMask01, KeyMask23, Inc01, Inc23, Lo, Hi;
    KeyMasksUnequal();
    SeededHalves(p, pLo, pHi, d);
    forall i | 0 <= i < |d.keys|
      ensures Seeded(pLo, LoDraw(d)).keys[i] == Seeded(pHi, HiDraw(d)).keys[i]
    {
      RectifyLaws(KeyMask01(), d.keys[i].lo);
      RectifyLaws(KeyMask23(), d.keys[i].hi);
    }
  }

  /** A draw in which every half of every key holds the first two primes, and the counter is zero. */
  function TwinDraw(numKeys: nat): Draw<Vec256> {
    Draw(seq(numKeys, _ => Vec256(Inc01(), Inc01())), Vec256(Repeated(0), Repeated(0)))
  }

  /** So a draw exists whose first output has two equal halves, in all four modes and for any number of keys. */
  lemma HalvesCanCoincide(p: Params<Vec256>, pLo: Params<Block>, pHi: Params<Block>)
    requires Halves(p, pLo, pHi)
    ensures var d := TwinDraw(p.numKeys);
            var b := Output(p, Seeded(p, d).keys, d.ctr);
            |d.keys| == p.numKeys && b.lo == b.hi
  {
    hide Output, LanesEqual, Inc01, Inc23, Lo, Hi, Seeded, Halves, Repeated;
    var d := TwinDraw(p.numKeys);
    IncrementsOdd();
    LanesEqualMeans(Inc01());
    EqualHalvesStay(p, pLo, pHi, d);
    HalvesCoincide(p, pLo, pHi, d, 0, 0);
  }

  lemma SameRounds(p: Params<Block>, q: Params<Block>, a: Block, key: Block, n: nat)
    requires HasAesRounds(p) && HasAesRounds(q) && p.enc == q.enc
    ensures Rounds(p, a, key, n) == Rounds(q, a, key, n)
  {
  }

  /** The cipher depends on the mode and the keys, not on the increment or the mask. */
  lemma {:induction false} SameCipher(p: Params<Block>, q: Params<Block>, a: Block, keys: seq<Block>)
    requires HasAesRounds(p) && HasAesRounds(q) && p.enc == q.enc && p.roundsPerKey == q.roundsPerKey
    ensures Cipher(p, a, keys) == Cipher(q, a, keys)
  {
    if |keys| != 0 {
      var most := keys[..|keys| - 1];
      SameCipher(p, q, a, most);
      SameRounds(p, q, Cipher(p, a, most), keys[|keys| - 1], p.roundsPerKey);
    }
  }
}
