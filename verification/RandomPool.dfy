/** The pool structure in memory, and the public functions that draw on it. */
module RandomPool {
  import opened Arithmetic
  import opened Bytes
  import opened Generator
  import opened CounterPrng
  import opened Pool
  import Sampler

  // Words of the stream

  function Offset(t: nat, k: nat, w: nat): (o: nat)
    ensures o == t + k * w
  {
    MulLe(0, k, w);
    t + k * w
  }

  /** Word k, of w bytes, that the stream holds from position t on. */
  function StreamWord<V(!new)>(cfg: Config<V>, entropy: Entropy<V>, t: nat, w: nat, k: nat): (n: nat)
    requires cfg.Valid()
    ensures n < Pow256(w)
  {
    Word(Stream(cfg, entropy, Offset(t, k, w), w))
  }

  ghost function StreamWords<V(!new)>(cfg: Config<V>, entropy: Entropy<V>, t: nat, w: nat): nat -> nat
    requires cfg.Valid()
  {
    (k: nat) => StreamWord(cfg, entropy, t, w, k)
  }

  /** A word is the join of its two halves, low half first, wherever in the stream it starts. */
  lemma WordIsTwoHalves<V(!new)>(cfg: Config<V>, entropy: Entropy<V>, t: nat, w: nat)
    requires cfg.Valid()
    ensures StreamWord(cfg, entropy, t, 2 * w, 0) ==
            StreamWord(cfg, entropy, t, w, 0) + Pow256(w) * StreamWord(cfg, entropy, t, w, 1)
  {
    hide Stream, Pow256, Word;
    StreamConcat(cfg, entropy, t, w, w);
    WordConcat(Stream(cfg, entropy, t, w), Stream(cfg, entropy, t + w, w));
  }

  /** Drawing a word after j others is drawing word j. */
  lemma StreamWordShift<V(!new)>(cfg: Config<V>, entropy: Entropy<V>, t: nat, w: nat, j: nat)
    requires cfg.Valid()
    ensures StreamWord(cfg, entropy, Offset(t, j, w), w, 0) == StreamWord(cfg, entropy, t, w, j)
    ensures StreamWords(cfg, entropy, t, w)(j) == StreamWord(cfg, entropy, t, w, j)
    ensures Offset(t, j + 1, w) == Offset(t, j, w) + w
  {
    hide Stream, Pow256, Word;
    assert (j + 1) * w == j * w + w;
  }

  lemma WordHere<V(!new)>(cfg: Config<V>, entropy: Entropy<V>, t: nat, w: nat)
    requires cfg.Valid()
    ensures StreamWord(cfg, entropy, t, w, 0) == Word(Stream(cfg, entropy, t, w))
  {
    hide Stream, Word, Pow256;
  }

  /** getentropy, as the calls of one thread see it. */
  class EntropySource<V(!new)> {
    const draws: Entropy<V>
    const numKeys: nat
    var taken: nat

    ghost predicate Valid() {
      forall k :: |draws(k).keys| == numKeys
    }

    constructor (draws: Entropy<V>, numKeys: nat)
      ensures this.draws == draws && this.numKeys == numKeys && taken == 0
    {
      this.draws := draws;
      this.numKeys := numKeys;
      this.taken := 0;
    }

    method GetEntropy() returns (d: Draw<V>)
      modifies this
      ensures d == draws(old(taken)) && taken == old(taken) + 1
    {
      d := draws(taken);
      taken := taken + 1;
    }
  }

  /** memcpy out of the pool, and explicit_bzero of what was copied. */
  method CopyAndWipe(pool: array<Byte>, src: nat, buf: array<Byte>, dst: nat, m: nat)
    requires pool != buf && src + m <= pool.Length && dst + m <= buf.Length
    modifies pool, buf
    ensures pool[..] == old(pool[..])[..src] + seq(m, _ => 0) + old(pool[..])[src + m..]
    ensures buf[..dst + m] == old(buf[..dst]) + old(pool[..])[src..src + m]
    ensures buf[dst + m..] == old(buf[dst + m..])
  {
    forall i | 0 <= i < m {
      buf[dst + i] := pool[src + i];
    }
    forall i | 0 <= i < m {
      pool[src + i] := 0;
    }
  }

  /** One thread's struct randp. */
  class Randp<V(!new)> {
    const cfg: Config<V>
    const source: EntropySource<V>
    const prng: CtrPrng<V>
    const pool: array<Byte>
    var reseedCountdown: int
    var randBytesRemaining: int
    ghost var refills: nat
    ghost var served: nat

    ghost function Repr(): set<object> {
      {this, source, prng, prng.keys, pool}
    }

    /** The structure's value, with the history of its use. */
    ghost function Now(): Session<V>
      reads Repr()
    {
      Session(PoolState(prng.State(), pool[..], reseedCountdown, randBytesRemaining), source.taken, refills, served)
    }

    /** The objects are wired together, and apart from each other. */
    ghost predicate Wired()
      reads Repr()
    {
      && prng.Valid() && prng.p == cfg.p
      && source.Valid() && source.numKeys == cfg.p.numKeys
      && pool.Length == cfg.poolSize
      && pool as object != prng.keys
      && WellFormed(cfg, Now())
    }

    ghost predicate Valid()
      reads Repr()
      ensures Valid() ==> cfg.Valid()
    {
      Wired() && AtRest(cfg, source.draws, Now())
    }

    /** The first use of the structure: fresh memory, all zeros. */
    constructor (cfg: Config<V>, source: EntropySource<V>)
      requires cfg.Valid() && source.Valid() && source.numKeys == cfg.p.numKeys && source.taken == 0
      ensures Valid() && this.cfg == cfg && this.source == source && fresh(Repr() - {source})
      ensures Now() == Start(cfg)
    {
      this.cfg := cfg;
      this.source := source;
      var prng := new CtrPrng(cfg.p);
      this.prng := prng;
      this.pool := new Byte[cfg.poolSize](_ => 0);
      reseedCountdown, randBytesRemaining := 0, 0;
      refills, served := 0, 0;
      new;
      assert pool[..] == seq(cfg.poolSize, _ => 0);
      StartInv(cfg, source.draws);
    }

    /** Refills the pool, reseeding first when the countdown has reached zero. */
    method Refill()
      requires Wired() && Inv(cfg, source.draws, Now()) && randBytesRemaining == 0
      modifies Repr()
      ensures Wired() && Now() == Regen(cfg, source.draws, old(Now()))
    {
      ghost var before := Now();
      if reseedCountdown == 0 {
        var draw := source.GetEntropy();
        prng.Reseed(draw);
        reseedCountdown := cfg.interval;
      }
      assert prng.State() == RefillFrom(cfg, source.draws, before);
      var numBlocks := cfg.poolSize / cfg.p.ops.width;
      assert numBlocks == cfg.NumBlocks();
      prng.FillBlocks(pool, numBlocks);
      assert pool[..] == pool[..numBlocks * cfg.p.ops.width];
      randBytesRemaining := cfg.poolSize;
      reseedCountdown := reseedCountdown - 1;
      refills := refills + 1;
    }

    /** The copy and the wipe of one iteration. */
    method Move(buf: array<Byte>, dst: nat, n: nat) returns (m: nat)
      requires Wired() && buf !in Repr() && dst + n <= buf.Length
      modifies this`randBytesRemaining, this`served, pool, buf
      ensures Wired() && m == Min(n, old(randBytesRemaining))
      ensures Now() == Take(cfg, old(Now()), n).0
      ensures buf[..dst + m] == old(buf[..dst]) + Take(cfg, old(Now()), n).1
      ensures buf[dst + m..] == old(buf[dst + m..])
    {
      hide Inv, AtRest, Accounted, InStep, Buffered, Params.Valid, BlockOps.Valid, Config.Valid;
      hide Fill, Flatten, Stream, StreamByte;
      var src := cfg.poolSize - randBytesRemaining;
      m := Min(n, randBytesRemaining);
      CopyAndWipe(pool, src, buf, dst, m);
      randBytesRemaining := randBytesRemaining - m;
      served := served + m;
    }

    /** One iteration of the loop of randp_bytes. */
    method Step(buf: array<Byte>, dst: nat, n: nat) returns (m: nat)
      requires Valid() && buf !in Repr() && dst + n <= buf.Length && n > 0
      modifies Repr(), buf
      ensures Valid()
      ensures Now() == Iterate(cfg, source.draws, old(Now()), n).0
      ensures 0 < m <= n && m == |Iterate(cfg, source.draws, old(Now()), n).1|
      ensures buf[..dst + m] == old(buf[..dst]) + Iterate(cfg, source.draws, old(Now()), n).1
      ensures buf[dst + n..] == old(buf[dst + n..])
    {
      IterateInv(cfg, source.draws, Now(), n);
      if randBytesRemaining == 0 {
        Refill();
      }
      label moving:
      m := Move(buf, dst, n);
      assert buf[dst + n..] == buf[dst + m..][n - m..];
      assert old@moving(buf[dst + n..]) == old@moving(buf[dst + m..])[n - m..];
    }

    /** randp_bytes: fills the first n bytes of buf. */
    method Fetch(buf: array<Byte>, n: nat)
      requires Valid() && buf !in Repr() && n <= buf.Length
      modifies Repr(), buf
      ensures Valid()
      ensures (Now(), buf[..n]) == Request(cfg, source.draws, old(Now()), n)
      ensures served == old(served) + n
      ensures buf[..n] == Stream(cfg, source.draws, old(served), n)
      ensures buf[n..] == old(buf[n..])
    {
      hide Request, Iterate, Inv, Stream;
      ghost var goal := Request(cfg, source.draws, Now(), n);
      RequestDelivers(cfg, source.draws, Now(), n);
      OnTrackEnds(cfg, source.draws, Now(), n, [], goal);
      var dst, left := 0, n;
      assert buf[..0] == [];
      while left > 0
        invariant Valid() && dst + left == n
        invariant OnTrack(cfg, source.draws, Now(), left, buf[..dst], goal)
        invariant buf[n..] == old(buf[n..])
      {
        OnTrackStep(cfg, source.draws, Now(), left, buf[..dst], goal);
        var m := Step(buf, dst, left);
        dst := dst + m;
        left := left - m;
      }
      OnTrackEnds(cfg, source.draws, Now(), 0, buf[..n], goal);
    }

    /** The body that randp_u8, randp_u16, randp_u32 and randp_u64 share: fetch w bytes into an integer. */
    method NextWord(w: nat) returns (n: nat)
      requires Valid()
      modifies Repr()
      ensures Valid() && served == old(served) + w
      ensures n == StreamWord(cfg, source.draws, old(served), w, 0)
    {
      hide Valid, Now, StreamWord, Stream, Word, Pow256;
      WordHere(cfg, source.draws, served, w);
      var result := new Byte[w];
      Fetch(result, w);
      assert result[..] == result[..w];
      n := Word(result[..]);
    }

    method U8() returns (n: nat)
      requires Valid()
      modifies Repr()
      ensures Valid() && served == old(served) + 1 && n == StreamByte(cfg, source.draws, old(served)) as nat
    {
      n := NextWord(1);
    }

    method U16() returns (n: nat)
      requires Valid()
      modifies Repr()
      ensures Valid() && served == old(served) + 2 && n == StreamWord(cfg, source.draws, old(served), 2, 0)
    {
      n := NextWord(2);
    }

    method U32() returns (n: nat)
      requires Valid()
      modifies Repr()
      ensures Valid() && served == old(served) + 4 && n == StreamWord(cfg, source.draws, old(served), 4, 0)
    {
      n := NextWord(4);
    }

    /** One 64-bit draw is two 32-bit draws, the first in the low half. */
    method U64() returns (n: nat)
      requires Valid()
      modifies Repr()
      ensures Valid() && served == old(served) + 8 && n == StreamWord(cfg, source.draws, old(served), 8, 0)
      ensures n == StreamWord(cfg, source.draws, old(served), 4, 0) +
                   0x1_0000_0000 * StreamWord(cfg, source.draws, old(served), 4, 1)
    {
      WordIsTwoHalves(cfg, source.draws, served, 4);
      assert Pow256(4) == 0x1_0000_0000;
      n := NextWord(8);
    }

    /**
     random_bounded_nearlydivisionless32 and 64 with randp_u32 and randp_u64 as the source: w is 4 or 8.
     The ghost a is the index of an acceptable word among those to come.
     */
    method NearlyDivisionless(w: nat, s: nat, ghost a: nat) returns (r: nat)
      requires Valid() && 0 < s < Pow256(w)
      requires Sampler.Accepted(Pow256(w), s, StreamWord(cfg, source.draws, served, w, a))
      modifies Repr()
      ensures Valid() && r < s
      ensures var words := StreamWords(cfg, source.draws, old(served), w);
              var (value, drawn) := Sampler.Plain(Pow256(w), s, words, 0, a);
              r == value && served == old(served) + drawn * w
    {
      hide *;
      var size := Pow256(w);
      ghost var start, words := served, StreamWords(cfg, source.draws, served, w);
      StreamWordShift(cfg, source.draws, start, w, 0);
      StreamWordShift(cfg, source.draws, start, w, a);
      Sampler.DrawingStarts(size, s, words, a);
      var x: nat := NextWord(w);
      var product: nat := x * s;
      ghost var drawn: nat := 1;
      if product % size < s {
        var threshold := Sampler.Threshold(size, s);
        while product % size < threshold
          invariant Valid() && served == Offset(start, drawn, w)
          invariant product == x * s && x < size
          invariant Sampler.Drawing(size, s, words, x, drawn, a)
          decreases a - drawn
        {
          Sampler.DrawingGoesOn(size, s, words, x, drawn, a);
          StreamWordShift(cfg, source.draws, start, w, drawn);
          x := NextWord(w);
          product := x * s;
          drawn := drawn + 1;
        }
      }
      Sampler.DrawingEnds(size, s, words, x, drawn, a);
      r := product / size;
    }

    /** randp_lt_u32 and randp_lt_u64: bounds up to 1 give 0 without a draw. */
    method LessThan(w: nat, upperBound: nat, ghost a: nat) returns (r: nat)
      requires Valid() && upperBound < Pow256(w)
      requires upperBound > 1 ==>
                 Sampler.Accepted(Pow256(w), upperBound, StreamWord(cfg, source.draws, served, w, a))
      modifies Repr()
      ensures Valid()
      ensures upperBound <= 1 ==> r == 0 && Now() == old(Now())
      ensures upperBound > 1 ==>
                var words := StreamWords(cfg, source.draws, old(served), w);
                var (value, drawn) := Sampler.Plain(Pow256(w), upperBound, words, 0, a);
                r == value && r < upperBound && served == old(served) + drawn * w
    {
      if upperBound <= 1 {
        return 0;
      }
      r := NearlyDivisionless(w, upperBound, a);
    }

    method LtU32(upperBound: nat, ghost a: nat) returns (r: nat)
      requires Valid() && upperBound < 0x1_0000_0000
      requires upperBound > 1 ==>
                 Sampler.Accepted(0x1_0000_0000, upperBound, StreamWord(cfg, source.draws, served, 4, a))
      modifies Repr()
      ensures Valid()
      ensures upperBound <= 1 ==> r == 0 && Now() == old(Now())
      ensures upperBound > 1 ==>
                var words := StreamWords(cfg, source.draws, old(served), 4);
                var (value, drawn) := Sampler.Plain(0x1_0000_0000, upperBound, words, 0, a);
                r == value && r < upperBound && served == old(served) + 4 * drawn
    {
      hide *;
      WordSizes();
      StreamWordShift(cfg, source.draws, served, 4, a);
      r := LessThan(4, upperBound, a);
    }

    method LtU64(upperBound: nat, ghost a: nat) returns (r: nat)
      requires Valid() && upperBound < 0x1_0000_0000_0000_0000
      requires upperBound > 1 ==>
                 Sampler.Accepted(0x1_0000_0000_0000_0000, upperBound, StreamWord(cfg, source.draws, served, 8, a))
      modifies Repr()
      ensures Valid()
      ensures upperBound <= 1 ==> r == 0 && Now() == old(Now())
      ensures upperBound > 1 ==>
                var words := StreamWords(cfg, source.draws, old(served), 8);
                var (value, drawn) := Sampler.Plain(0x1_0000_0000_0000_0000, upperBound, words, 0, a);
                r == value && r < upperBound && served == old(served) + 8 * drawn
    {
      hide *;
      WordSizes();
      StreamWordShift(cfg, source.draws, served, 8, a);
      r := LessThan(8, upperBound, a);
    }
  }
}
