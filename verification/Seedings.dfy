/** How much one draw of entropy serves, in general and in the two default builds. */
module Seedings {
  import opened Arithmetic
  import opened Bytes
  import opened Aes
  import opened Generator
  import opened Aes128
  import opened Aes128Generator
  import opened Aes256
  import opened Pool
  import opened AesStream
  import Sampler

  /** The positions below total whose quotient by d is e. */
  function Slice(total: nat, d: nat, e: nat): set<nat>
    requires d > 0
  {
    set t | t in Sampler.Interval(0, total) && t / d == e
  }

  lemma QuotientIs(t: nat, d: nat, q: nat)
    requires d > 0
    ensures t / d == q <==> q * d <= t < q * d + d
  {
    DivModParts(t, d);
    if q * d <= t < q * d + d {
      DivModUnique(t, d, q, t - q * d);
    }
  }

  lemma SliceSize(total: nat, d: nat, e: nat)
    requires d > 0
    ensures |Slice(total, d, e)| == if e * d + d <= total then d else if e * d < total then total - e * d else 0
  {
    hide Sampler.Interval;
    var n := if e * d + d <= total then d else if e * d < total then total - e * d else 0;
    MulLe(0, e, d);
    forall t: nat
      ensures t in Slice(total, d, e) <==> t in Sampler.Interval(e * d, n)
    {
      QuotientIs(t, d, e);
    }
    assert Slice(total, d, e) == Sampler.Interval(e * d, n);
  }

  /** Where the e-th portion of size d stands when drawn portions cover total. */
  lemma PortionCases(total: nat, d: nat, drawn: nat, e: nat)
    requires d > 0 && drawn == CeilDiv(total, d)
    ensures e + 1 < drawn ==> e * d + d <= total
    ensures e + 1 == drawn ==> e * d < total <= e * d + d
    ensures e >= drawn ==> total <= e * d
  {
    DivModParts(total + d - 1, d);
    assert drawn * d - d < total <= drawn * d;
    assert (e + 1) * d == e * d + d;
    if e + 1 < drawn {
      MulLe(e + 1, drawn - 1, d);
      assert (drawn - 1) * d == drawn * d - d;
    } else if e >= drawn {
      MulLe(drawn, e, d);
    }
  }

  /**
   After any requests, every draw but the last has served exactly P * R bytes, the last one has served the rest,
   which is at least one byte and at most P * R, and there are no others.
   */
  lemma SeedingServes<V(!new)>(cfg: Config<V>, entropy: Entropy<V>, sizes: seq<nat>, e: nat)
    requires cfg.Valid()
    ensures cfg.Span() > 0
    ensures var total, drawn := Total(sizes), Run(cfg, entropy, Start(cfg), sizes).0.drawn;
            var supplied := |Slice(total, cfg.Span(), e)|;
            && (e + 1 < drawn ==> supplied == cfg.Span())
            && (e + 1 == drawn ==> 0 < supplied == total - e * cfg.Span() <= cfg.Span())
            && (e >= drawn ==> supplied == 0)
  {
    hide Run, Total, Slice, CeilDiv;
    var total, span := Total(sizes), cfg.Span();
    RunAccounting(cfg, entropy, sizes);
    PortionCases(total, span, CeilDiv(total, span), e);
    SliceSize(total, span, e);
  }

  // The default builds

  const POOL_SIZE_128 := 256
  const RESEED_INTERVAL_128 := 1024
  const POOL_SIZE_256 := 512
  const RESEED_INTERVAL_256 := RESEED_INTERVAL_128 * POOL_SIZE_128 / POOL_SIZE_256

  /** The AES build: encryption without Davies-Meyer, three keys of one round each. */
  function Default128(): Config<Block> {
    Config(Params(Ops(Inc01(), KeyMask01()), true, false, 3, 1), POOL_SIZE_128, RESEED_INTERVAL_128)
  }

  function Default256(): Config<Vec256> {
    Config(Params(Ops256(), true, false, 3, 1), POOL_SIZE_256, RESEED_INTERVAL_256)
  }

  lemma DefaultsValid()
    ensures Default128().Valid() && Default256().Valid()
    ensures Default128().Span() == 0x4_0000 && Default256().Span() == 0x4_0000
    ensures Default128().p.ops == Ops(Inc01(), KeyMask01()) && !Default128().p.dm
    ensures Default128().poolSize == 256 && Default128().interval == 1024
  {
    hide Inc01, KeyMask01, Ops, Ops256, BlockOps.Valid;
    OpsValid(Inc01(), KeyMask01());
    Ops256Valid();
  }

  /** For the same number of bytes the default builds draw entropy equally often, and VAES refills half as often. */
  lemma DefaultsReseedTogether(entropy: Entropy<Block>, entropy': Entropy<Vec256>, sizes: seq<nat>, sizes': seq<nat>)
    requires Total(sizes) == Total(sizes')
    ensures Default128().Valid() && Default256().Valid()
    ensures var s := Run(Default128(), entropy, Start(Default128()), sizes).0;
            var s' := Run(Default256(), entropy', Start(Default256()), sizes').0;
            s.drawn == s'.drawn == CeilDiv(Total(sizes), 0x4_0000) && s'.refills == CeilDiv(s.refills, 2)
  {
    hide Run, Total, Inc01, KeyMask01, Ops, Ops256;
    DefaultsValid();
    RunAccounting(Default128(), entropy, sizes);
    RunAccounting(Default256(), entropy', sizes');
    var n := Total(sizes);
    CeilDivUnique(CeilDiv(n, 256), 2, CeilDiv(n, 512));
  }

  /** A drawn key with the lanes of H0[0] and H0[1], say, added when its own lanes are equal. */
  function FixedKey(key: Block, m0: nat, m1: nat): Block {
    if Lo(key) == Hi(key) then Xor(key, FromLanes(m0, m1)) else key
  }

  /**
   What output i of a draw should be: the drawn counter with i times w0 and w1 added to its lanes, and then three
   AESENC rounds, under the three drawn keys in order.
   */
  function ThreeRounds(d: Draw<Block>, i: nat, w0: nat, w1: nat, m0: nat, m1: nat): Block
    requires |d.keys| == 3
  {
    MulLe(0, i, w0);
    MulLe(0, i, w1);
    var ctr := FromLanes(Lo(d.ctr) + i * w0, Hi(d.ctr) + i * w1);
    EncRound(EncRound(EncRound(ctr, FixedKey(d.keys[0], m0, m1)), FixedKey(d.keys[1], m0, m1)),
             FixedKey(d.keys[2], m0, m1))
  }

  lemma RectifyIsFixed(key: Block)
    ensures Rectify(KeyMask01(), key) == FixedKey(key, 0x6a09e667f3bcc908, 0xbb67ae8584caa73b)
    ensures Rectify(KeyMask23(), key) == FixedKey(key, 0x3c6ef372fe94f82b, 0xa54ff53a5f1d36f1)
  {
    hide Rectify, Lo, Hi, FromLanes, Xor, LanesEqual;
    RectifyCases(KeyMask01(), key);
    RectifyCases(KeyMask23(), key);
    LanesEqualMeans(key);
  }

  lemma EncCipherOfThree(p: Params<Block>, a: Block, keys: seq<Block>)
    requires p.ops.encRound == EncRound && p.enc && !p.dm && p.roundsPerKey == 1 && |keys| == 3
    ensures Output(p, keys, a) == EncRound(EncRound(EncRound(a, keys[0]), keys[1]), keys[2])
  {
    hide EncRound, Cipher;
    var one, two := [keys[0]], [keys[0], keys[1]];
    assert keys == [keys[0], keys[1], keys[2]];
    CipherIsTrail(p, a, keys);
    assert RoundKeys(keys, 1) == keys;
    assert keys[..2] == two && two[..1] == one && one[..0] == [];
    assert Trail(p, a, one) == EncRound(a, keys[0]);
    assert Trail(p, a, two) == EncRound(EncRound(a, keys[0]), keys[1]);
  }

  lemma DefaultOps128()
    ensures var p := Default128().p;
            && p.ops.encRound == EncRound && p.ops.add == AddLanes && p.ops.inc == Inc01() && p.ops.bytes == ToBytes
            && p.ops.width == 16 && p.enc && !p.dm && p.roundsPerKey == 1
            && forall key :: p.ops.rectify(key) == Rectify(KeyMask01(), key)
  {
    hide Inc01, KeyMask01, EncRound, DecRound, AddLanes, Rectify, ToBytes;
  }

  /** The n bytes of the default AES build's stream from position t on. */
  function AesBytes(entropy: Entropy<Block>, t: nat, n: nat): seq<Byte> {
    DefaultsValid();
    Stream(Default128(), entropy, t, n)
  }

  function VaesBytes(entropy: Entropy<Vec256>, t: nat, n: nat): seq<Byte> {
    DefaultsValid();
    Stream(Default256(), entropy, t, n)
  }

  lemma AesBytesAre(entropy: Entropy<Block>, t: nat, n: nat)
    ensures Default128().Valid() && AesBytes(entropy, t, n) == Stream(Default128(), entropy, t, n)
  {
    hide Stream, Default128;
    DefaultsValid();
  }

  lemma VaesBytesAre(entropy: Entropy<Vec256>, t: nat, n: nat)
    ensures Default256().Valid() && VaesBytes(entropy, t, n) == Stream(Default256(), entropy, t, n)
  {
    hide Stream, Default256;
    DefaultsValid();
  }

  /**
   Block i of seeding e of the default AES build, in full: three AESENC rounds under the three keys drawn, each with
   the mask added if its lanes are equal, of the drawn counter advanced by i times the first two primes.
   */
  lemma DefaultBlock(entropy: Entropy<Block>, e: nat, i: nat)
    requires i < 0x4_0000 / 16 && |entropy(e).keys| == 3
    ensures AesBytes(entropy, e * 0x4_0000 + i * 16, 16) ==
            ToBytes(ThreeRounds(entropy(e), i, WYPRIME0, WYPRIME1, 0x6a09e667f3bcc908, 0xbb67ae8584caa73b))
  {
    hide *;
    DefaultsValid();
    DefaultOps128();
    IncrementsOdd();
    forall key
      ensures Default128().p.ops.rectify(key) == FixedKey(key, 0x6a09e667f3bcc908, 0xbb67ae8584caa73b)
    {
      RectifyIsFixed(key);
    }
    StreamBlock(Default128(), entropy, e, i);
    AesBytesAre(entropy, e * 0x4_0000 + i * 16, 16);
    DefaultOutput(Default128().p, entropy(e), i, WYPRIME0, WYPRIME1, 0x6a09e667f3bcc908, 0xbb67ae8584caa73b);
  }

  /** An output with the increment's lanes w0 and w1, and keys fixed with m0 and m1. */
  lemma DefaultOutput(p: Params<Block>, d: Draw<Block>, i: nat, w0: nat, w1: nat, m0: nat, m1: nat)
    requires p.ops.encRound == EncRound && p.ops.add == AddLanes && Lo(p.ops.inc) == w0 && Hi(p.ops.inc) == w1
    requires p.enc && !p.dm && p.roundsPerKey == 1 && |d.keys| == 3
    requires forall key :: p.ops.rectify(key) == FixedKey(key, m0, m1)
    ensures Output(p, Seeded(p, d).keys, CtrAt(p.ops, Seeded(p, d).ctr, i)) == ThreeRounds(d, i, w0, w1, m0, m1)
  {
    hide EncRound, FixedKey, Lo, Hi, FromLanes, Output, CtrAt, Seeded, AddLanes;
    CtrIs(p.ops, d.ctr, i);
    EncCipherOfThree(p, CtrAt(p.ops, d.ctr, i), Seeded(p, d).keys);
  }

  /** The default VAES build's generator has these two for its halves. */
  lemma DefaultHalves()
    ensures var p := Default256().p;
            var lo, hi := Params(OpsLo(), true, false, 3, 1), Params(OpsHi(), true, false, 3, 1);
            && Halves(p, lo, hi) && p.ops == Ops256() && lo.ops.encRound == hi.ops.encRound == EncRound
  {
    hide Inc01, Inc23, KeyMask01, KeyMask23, EncRound, DecRound, AddLanes, Rectify, ToBytes, Ops256;
  }

  /**
   And of the default VAES build: 16-byte blocks 2 i and 2 i + 1 are the same of the low and of the high halves, with
   the other two primes and the other mask for the high ones.
   */
  lemma DefaultVaesBlock(entropy: Entropy<Vec256>, e: nat, i: nat, t: nat)
    requires i < 0x4_0000 / 32 && t == e * 0x4_0000 + i * 32 && |entropy(e).keys| == 3
    ensures VaesBytes(entropy, t, 16) ==
            ToBytes(ThreeRounds(LoDraw(entropy(e)), i, WYPRIME0, WYPRIME1, 0x6a09e667f3bcc908, 0xbb67ae8584caa73b))
    ensures VaesBytes(entropy, t + 16, 16) ==
            ToBytes(ThreeRounds(HiDraw(entropy(e)), i, WYPRIME2, WYPRIME3, 0x3c6ef372fe94f82b, 0xa54ff53a5f1d36f1))
  {
    hide *;
    var cfg, d := Default256(), entropy(e);
    var pLo, pHi := Params(OpsLo(), true, false, 3, 1), Params(OpsHi(), true, false, 3, 1);
    DefaultsValid();
    DefaultHalves();
    HalvesOps(cfg.p, pLo, pHi);
    IncrementsOdd();
    forall key
      ensures pLo.ops.rectify(key) == FixedKey(key, 0x6a09e667f3bcc908, 0xbb67ae8584caa73b)
      ensures pHi.ops.rectify(key) == FixedKey(key, 0x3c6ef372fe94f82b, 0xa54ff53a5f1d36f1)
    {
      RectifyIsFixed(key);
    }
    VaesStreamBlock(cfg, entropy, e, i, t);
    StreamSplit(cfg, entropy, t, 32, 16);
    VaesBytesAre(entropy, t, 16);
    VaesBytesAre(entropy, t + 16, 16);
    OutputIsTwoOutputs(cfg.p, pLo, pHi, d, i);
    HalfOfBlock(Output(cfg.p, Seeded(cfg.p, d).keys, CtrAt(cfg.p.ops, Seeded(cfg.p, d).ctr, i)));
    DrawHalves(d);
    DefaultOutput(pLo, LoDraw(d), i, WYPRIME0, WYPRIME1, 0x6a09e667f3bcc908, 0xbb67ae8584caa73b);
    DefaultOutput(pHi, HiDraw(d), i, WYPRIME2, WYPRIME3, 0x3c6ef372fe94f82b, 0xa54ff53a5f1d36f1);
  }

  lemma DrawHalves(d: Draw<Vec256>)
    ensures LoDraw(d).ctr == d.ctr.lo && HiDraw(d).ctr == d.ctr.hi
    ensures LoDraw(d).keys == LoAll(d.keys) && HiDraw(d).keys == HiAll(d.keys)
    ensures |LoDraw(d).keys| == |d.keys| == |HiDraw(d).keys|
  {
  }

  /** The default AES build gives out no 16-byte block twice within a seeding. */
  lemma DefaultNeverRepeats(entropy: Entropy<Block>, e: nat, i: nat, j: nat)
    requires i < j < 0x4_0000 / 16
    ensures Default128().Valid()
    ensures Stream(Default128(), entropy, e * 0x4_0000 + i * 16, 16)
            != Stream(Default128(), entropy, e * 0x4_0000 + j * 16, 16)
  {
    hide *;
    DefaultsValid();
    IncrementsOdd();
    NoRepeatInSeeding(Default128(), Inc01(), KeyMask01(), entropy, e, i, j);
  }
}
