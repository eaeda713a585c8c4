/** What the AES and VAES generators mean for the bytes that the pool hands out. */
module AesStream {
  import opened Arithmetic
  import opened Bytes
  import opened Aes
  import opened Generator
  import opened Aes128
  import opened Aes128Generator
  import opened Aes256
  import opened Pool

  /** A block-sized, block-aligned piece of what one seeding supplies is one output of its generator. */
  lemma StreamBlock<V(!new)>(cfg: Config<V>, entropy: Entropy<V>, e: nat, i: nat)
    requires cfg.Valid() && (i + 1) * cfg.p.ops.width <= cfg.Span()
    ensures e * cfg.Span() + i * cfg.p.ops.width >= 0
    ensures var g := Seeded(cfg.p, entropy(e));
            Stream(cfg, entropy, e * cfg.Span() + i * cfg.p.ops.width, cfg.p.ops.width) ==
            cfg.p.ops.bytes(Output(cfg.p, g.keys, CtrAt(cfg.p.ops, g.ctr, i)))
  {
    var w, span := cfg.p.ops.width, cfg.Span();
    var g, t := Seeded(cfg.p, entropy(e)), e * span + i * w;
    MulLe(0, e, span);
    MulLe(0, i, w);
    hide Output, CtrAt, Seeded;
    var bytes := cfg.p.ops.bytes(Output(cfg.p, g.keys, CtrAt(cfg.p.ops, g.ctr, i)));
    forall k | 0 <= k < w
      ensures Stream(cfg, entropy, t, w)[k] == bytes[k]
    {
      BlockIndex(e, span, i, w, k);
    }
    assert Stream(cfg, entropy, t, w) == bytes;
  }

  /** The aligned 64-bit words of the AES build's stream are the lanes of the generator's outputs, low lane first. */
  lemma StreamWordsAreLanes(cfg: Config<Block>, entropy: Entropy<Block>, e: nat, i: nat, t: nat)
    requires cfg.Valid() && cfg.p.ops.width == 16 && cfg.p.ops.bytes == ToBytes
    requires (i + 1) * 16 <= cfg.Span() && t == e * cfg.Span() + i * 16
    ensures var g := Seeded(cfg.p, entropy(e));
            var a := Output(cfg.p, g.keys, CtrAt(cfg.p.ops, g.ctr, i));
            Word(Stream(cfg, entropy, t, 8)) == Lo(a) && Word(Stream(cfg, entropy, t + 8, 8)) == Hi(a)
  {
    hide *;
    var g, w := Seeded(cfg.p, entropy(e)), cfg.p.ops.width;
    assert i * w == i * 16 && (i + 1) * w == (i + 1) * 16;
    StreamBlock(cfg, entropy, e, i);
    StreamSplit(cfg, entropy, t, 16, 8);
    BytesAreLanes(Output(cfg.p, g.keys, CtrAt(cfg.p.ops, g.ctr, i)));
  }

  lemma BlockIndex(e: nat, span: nat, i: nat, w: nat, k: nat)
    requires (i + 1) * w <= span && k < w
    ensures (e * span + i * w + k) / span == e && (e * span + i * w + k) % span == i * w + k
    ensures (i * w + k) / w == i && (i * w + k) % w == k
  {
    assert (i + 1) * w == i * w + w;
    MulLe(0, i, w);
    DivModUnique(e * span + (i * w + k), span, e, i * w + k);
    DivModUnique(i * w + k, w, i, k);
  }

  /**
   The AES build without Davies-Meyer never repeats an aligned 16-byte block of its output between two reseeds:
   its sizes are C ints, so a seeding covers fewer than 2^64 blocks.
   */
  lemma NoRepeatInSeeding(cfg: Config<Block>, inc: Block, mask: Block, entropy: Entropy<Block>, e: nat, i: nat, j: nat)
    requires cfg.Valid() && cfg.p.ops == Ops(inc, mask) && !cfg.p.dm
    requires Lo(inc) % 2 == 1 && Hi(inc) % 2 == 1
    requires cfg.poolSize < 0x8000_0000 && cfg.interval < 0x8000_0000
    requires i != j && (i + 1) * 16 <= cfg.Span() && (j + 1) * 16 <= cfg.Span()
    ensures e * cfg.Span() + i * 16 >= 0 && e * cfg.Span() + j * 16 >= 0
    ensures Stream(cfg, entropy, e * cfg.Span() + i * 16, 16) != Stream(cfg, entropy, e * cfg.Span() + j * 16, 16)
  {
    hide Output, CtrAt, Seeded, Stream, StreamByte, Lo, Hi, FromLanes, EncRound, DecRound, Rectify;
    var g, w := Seeded(cfg.p, entropy(e)), cfg.p.ops.width;
    assert w == 16 && i * w == i * 16 && j * w == j * 16 && (i + 1) * w == (i + 1) * 16 && (j + 1) * w == (j + 1) * 16;
    StreamBlock(cfg, entropy, e, i);
    StreamBlock(cfg, entropy, e, j);
    FewBlocks(cfg, i);
    FewBlocks(cfg, j);
    OutputsDistinct(cfg.p, g, i, j);
    ToBytesInjective(Output(cfg.p, g.keys, CtrAt(cfg.p.ops, g.ctr, i)),
                     Output(cfg.p, g.keys, CtrAt(cfg.p.ops, g.ctr, j)));
  }

  lemma FewBlocks<V(!new)>(cfg: Config<V>, i: nat)
    requires cfg.poolSize < 0x8000_0000 && cfg.interval < 0x8000_0000 && (i + 1) * 16 <= cfg.Span()
    ensures i % LANE_SIZE == i
  {
    MulLe(cfg.poolSize, 0x8000_0000, cfg.interval);
  }

  /** The aligned 16-byte pieces of a 32-byte block are its halves. */
  lemma HalfOfBlock(v: Vec256)
    ensures ToBytes256(v)[..16] == ToBytes(v.lo) && ToBytes256(v)[16..] == ToBytes(v.hi)
  {
  }

  lemma VaesWidth(p: Params<Vec256>)
    requires p.ops == Ops256()
    ensures p.ops.width == 32 && p.ops.bytes == ToBytes256
  {
  }

  /** StreamBlock with the sizes of the VAES build. */
  lemma VaesStreamBlock(cfg: Config<Vec256>, entropy: Entropy<Vec256>, e: nat, i: nat, t: nat)
    requires cfg.Valid() && cfg.p.ops == Ops256() && (i + 1) * 32 <= cfg.Span() && t == e * cfg.Span() + i * 32
    ensures var g := Seeded(cfg.p, entropy(e));
            Stream(cfg, entropy, t, 32) == ToBytes256(Output(cfg.p, g.keys, CtrAt(cfg.p.ops, g.ctr, i)))
  {
    hide *;
    VaesWidth(cfg.p);
    var w := cfg.p.ops.width;
    assert i * w == i * 32 && (i + 1) * w == (i + 1) * 32;
    StreamBlock(cfg, entropy, e, i);
  }

  /** Piece m of 16 bytes of a VAES seeding is one half of output m / 2: the low half when m is even. */
  lemma StreamHalfBlock(cfg: Config<Vec256>, entropy: Entropy<Vec256>, e: nat, m: nat, t: nat)
    requires cfg.Valid() && cfg.p.ops == Ops256() && (m + 1) * 16 <= cfg.Span() && t == e * cfg.Span() + m * 16
    ensures var g := Seeded(cfg.p, entropy(e));
            var v := Output(cfg.p, g.keys, CtrAt(cfg.p.ops, g.ctr, m / 2));
            Stream(cfg, entropy, t, 16) == ToBytes(if m % 2 == 0 then v.lo else v.hi)
  {
    hide *;
    var span, i := cfg.Span(), m / 2;
    var start := t - m % 2 * 16;
    MulLe(0, e, span);
    WholeBlock(cfg, m);
    VaesStreamBlock(cfg, entropy, e, i, start);
    var g := Seeded(cfg.p, entropy(e));
    StreamSplit(cfg, entropy, start, 32, 16);
    HalfOfBlock(Output(cfg.p, g.keys, CtrAt(cfg.p.ops, g.ctr, i)));
  }

  /** A seeding covers whole 32-byte blocks, so with one half of a block it covers the other. */
  lemma WholeBlock(cfg: Config<Vec256>, m: nat)
    requires cfg.Valid() && (m + 1) * 16 <= cfg.Span()
    ensures (m / 2 + 1) * 32 <= cfg.Span()
  {
    var q := cfg.poolSize / 32;
    assert cfg.Span() == (q * 32) * cfg.interval;
    MulAssoc(32, q, cfg.interval);
    assert cfg.Span() == 32 * (q * cfg.interval);
  }

  lemma HalvesOpsOnly(p: Params<Vec256>, pLo: Params<Block>, pHi: Params<Block>)
    requires Halves(p, pLo, pHi)
    ensures p.ops == Ops256()
  {
    hide Ops256, OpsLo, OpsHi;
  }

  lemma HalfIndices(m: nat, n: nat)
    requires m != n && m % 2 == n % 2
    requires m % LANE_SIZE == m && n % LANE_SIZE == n
    ensures m / 2 % LANE_SIZE != n / 2 % LANE_SIZE
  {
    assert m / 2 != n / 2;
  }

  /** The VAES build without Davies-Meyer repeats no aligned 16-byte piece of equal parity between two reseeds. */
  lemma NoRepeatInVaesSeeding(cfg: Config<Vec256>, pLo: Params<Block>, pHi: Params<Block>, entropy: Entropy<Vec256>,
                              e: nat, m: nat, n: nat)
    requires cfg.Valid() && Halves(cfg.p, pLo, pHi) && !cfg.p.dm
    requires cfg.poolSize < 0x8000_0000 && cfg.interval < 0x8000_0000
    requires m != n && m % 2 == n % 2 && (m + 1) * 16 <= cfg.Span() && (n + 1) * 16 <= cfg.Span()
    ensures e * cfg.Span() + m * 16 >= 0 && e * cfg.Span() + n * 16 >= 0
    ensures Stream(cfg, entropy, e * cfg.Span() + m * 16, 16) != Stream(cfg, entropy, e * cfg.Span() + n * 16, 16)
  {
    hide *;
    MulLe(0, e, cfg.Span());
    HalvesOpsOnly(cfg.p, pLo, pHi);
    StreamHalfBlock(cfg, entropy, e, m, e * cfg.Span() + m * 16);
    StreamHalfBlock(cfg, entropy, e, n, e * cfg.Span() + n * 16);
    HalvesDistinct(cfg.p, pLo, pHi, entropy(e), m / 2, n / 2);
    FewBlocks(cfg, m);
    FewBlocks(cfg, n);
    HalfIndices(m, n);
    var g := Seeded(cfg.p, entropy(e));
    var x := Output(cfg.p, g.keys, CtrAt(cfg.p.ops, g.ctr, m / 2));
    var y := Output(cfg.p, g.keys, CtrAt(cfg.p.ops, g.ctr, n / 2));
    ToBytesInjective(x.lo, y.lo);
    ToBytesInjective(x.hi, y.hi);
  }

  /** The position, in the stream of either half, of byte t of the VAES build's stream. */
  function HalfPosition(t: nat): nat {
    t / 32 * 16 + t % 16
  }

  lemma HalfPositionIs(u: nat)
    ensures HalfPosition(u) / 16 == u / 32 && HalfPosition(u) % 16 == u % 16
  {
    DivModUnique(HalfPosition(u), 16, u / 32, u % 16);
  }

  lemma HalfByte(v: Vec256, k: nat)
    requires k < 32
    ensures ToBytes256(v)[k] == if k < 16 then ToBytes(v.lo)[k] else ToBytes(v.hi)[k - 16]
  {
  }

  lemma HalvesBytes(p: Params<Vec256>, pLo: Params<Block>, pHi: Params<Block>)
    requires Halves(p, pLo, pHi)
    ensures p.ops.bytes == ToBytes256 && pLo.ops.bytes == pHi.ops.bytes == ToBytes
    ensures p.ops.width == 32 && pLo.ops.width == pHi.ops.width == 16
  {
    hide *;
    HalvesOps(p, pLo, pHi);
  }

  lemma SeedByteInterleaves(p: Params<Vec256>, pLo: Params<Block>, pHi: Params<Block>, d: Draw<Vec256>, u: nat)
    requires p.Valid() && pLo.Valid() && pHi.Valid() && Halves(p, pLo, pHi)
    ensures SeedByte(p, d, u) ==
            if u / 16 % 2 == 0 then SeedByte(pLo, LoDraw(d), HalfPosition(u))
            else SeedByte(pHi, HiDraw(d), HalfPosition(u))
  {
    hide *;
    HalvesBytes(p, pLo, pHi);
    HalfPositionLinear(u, 0, u, u / 32 + 1);
    HalfPositionIs(u);
    OutputIsTwoOutputs(p, pLo, pHi, d, u / 32);
    SeedByteIs(p, d, u, u / 32, u % 32);
    SeedByteIs(pLo, LoDraw(d), HalfPosition(u), u / 32, u % 16);
    SeedByteIs(pHi, HiDraw(d), HalfPosition(u), u / 32, u % 16);
    var g := Seeded(p, d);
    HalfByte(Output(p, g.keys, CtrAt(p.ops, g.ctr, u / 32)), u % 32);
  }

  /**
   The VAES build's stream interleaves, 16 bytes at a time, the streams of two AES pools that reseed after half
   as many bytes, on the low and on the high halves of its entropy.
   */
  lemma VaesStreamInterleaves(cfg: Config<Vec256>, cfgLo: Config<Block>, cfgHi: Config<Block>,
                              entropy: Entropy<Vec256>, entropyLo: Entropy<Block>, entropyHi: Entropy<Block>, t: nat)
    requires cfg.Valid() && cfgLo.Valid() && cfgHi.Valid() && Halves(cfg.p, cfgLo.p, cfgHi.p)
    requires cfg.Span() == 2 * cfgLo.Span() == 2 * cfgHi.Span()
    requires forall k :: entropyLo(k) == LoDraw(entropy(k)) && entropyHi(k) == HiDraw(entropy(k))
    ensures StreamByte(cfg, entropy, t) ==
            if t / 16 % 2 == 0 then StreamByte(cfgLo, entropyLo, HalfPosition(t))
            else StreamByte(cfgHi, entropyHi, HalfPosition(t))
  {
    hide *;
    SpanMultiple(cfgLo);
    var span := cfgLo.Span();
    HalfPositionSplits(t, span);
    InterleaveAt(cfg, cfgLo, cfgHi, entropy, entropyLo, entropyHi, t, HalfPosition(t), t / (2 * span), t % (2 * span));
  }

  /** With t at offset u of draw e, and h at offset HalfPosition(u) of draw e. */
  lemma InterleaveAt(cfg: Config<Vec256>, cfgLo: Config<Block>, cfgHi: Config<Block>, entropy: Entropy<Vec256>,
                     entropyLo: Entropy<Block>, entropyHi: Entropy<Block>, t: nat, h: nat, e: nat, u: nat)
    requires cfg.Valid() && cfgLo.Valid() && cfgHi.Valid() && Halves(cfg.p, cfgLo.p, cfgHi.p)
    requires cfg.Span() > 0 && cfgLo.Span() > 0 && cfgHi.Span() > 0
    requires forall k :: entropyLo(k) == LoDraw(entropy(k)) && entropyHi(k) == HiDraw(entropy(k))
    requires t / cfg.Span() == h / cfgLo.Span() == h / cfgHi.Span() == e
    requires t % cfg.Span() == u && h % cfgLo.Span() == h % cfgHi.Span() == HalfPosition(u)
    ensures StreamByte(cfg, entropy, t) ==
            if u / 16 % 2 == 0 then StreamByte(cfgLo, entropyLo, h) else StreamByte(cfgHi, entropyHi, h)
  {
    hide *;
    StreamByteIs(cfg, entropy, t, e, u);
    StreamByteIs(cfgLo, entropyLo, h, e, HalfPosition(u));
    StreamByteIs(cfgHi, entropyHi, h, e, HalfPosition(u));
    SeedByteInterleaves(cfg.p, cfgLo.p, cfgHi.p, entropy(e), u);
  }

  lemma SpanMultiple<V(!new)>(cfg: Config<V>)
    requires cfg.Valid()
    ensures cfg.Span() > 0 && cfg.Span() % 16 == 0
  {
    SpanPositive(cfg);
    var q := cfg.poolSize / 32;
    assert cfg.Span() == (q * 32) * cfg.interval;
    MulAssoc(32, q, cfg.interval);
    assert cfg.Span() == 32 * (q * cfg.interval);
  }

  /** Halving the positions keeps the draw, and halves the position within it. */
  lemma HalfPositionSplits(t: nat, span: nat)
    requires span > 0 && span % 16 == 0
    ensures HalfPosition(t) / span == t / (2 * span)
    ensures HalfPosition(t) % span == HalfPosition(t % (2 * span))
    ensures t / 16 % 2 == t % (2 * span) / 16 % 2
  {
    var e, u := t / (2 * span), t % (2 * span);
    var q := span / 16;
    var m := e * q;
    DivModParts(t, 2 * span);
    MulAssoc(e, 16, q);
    MulAssoc(e, 2, span);
    MulAssoc(16, e, q);
    MulAssoc(2, e, span);
    HalfPositionLinear(t, m, u, q);
    DivModUnique(HalfPosition(t), span, e, HalfPosition(u));
  }

  lemma HalfPositionLinear(t: nat, m: int, u: nat, q: nat)
    requires t == 32 * m + u && u < 32 * q
    ensures HalfPosition(t) == 16 * m + HalfPosition(u) && HalfPosition(u) < 16 * q
    ensures u / 16 % 2 == t / 16 % 2
    ensures u % 32 == if t / 16 % 2 == 0 then u % 16 else 16 + u % 16
  {
    DivModUnique(t, 32, m + u / 32, u % 32);
    DivModUnique(t, 16, 2 * m + u / 16, u % 16);
    DivModSplit(u, 16, 2);
  }
}
