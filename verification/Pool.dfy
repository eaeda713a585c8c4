/**
 The random pool as a cache over one ideal byte stream.

 The stream is fixed by the sequence of entropy draws alone.  Draw e seeds P * R bytes of it, the bytes of
 consecutive generator outputs.  The pool hands those bytes out in the order of the stream, whatever the
 sizes of the requests.
 */
module Pool {
  import opened Arithmetic
  import opened Bytes
  import opened Generator

  /** poolSize is RANDP_POOL_SIZE_BYTES and interval is RANDP_RESEED_INTERVAL. */
  datatype Config<!V(!new)> = Config(p: Params<V>, poolSize: nat, interval: nat) {
    ghost predicate Valid() {
      && p.Valid()
      && poolSize > 0
      && poolSize % 32 == 0
      && interval >= 1
    }

    /** Blocks in the pool. */
    function NumBlocks(): (n: nat)
      requires Valid()
      ensures n > 0 && n * p.ops.width == poolSize
    {
      assert poolSize % p.ops.width == 0;
      poolSize / p.ops.width
    }

    /** Bytes generated from one seeding. */
    function Span(): nat {
      poolSize * interval
    }
  }

  /** What successive calls of getentropy return. */
  type Entropy<!V> = nat -> Draw<V>

  // The ideal stream

  /** Byte u of the output of the generator that one draw seeds. */
  function SeedByte<V(!new)>(p: Params<V>, d: Draw<V>, u: nat): Byte
    requires p.Valid()
  {
    var g := Seeded(p, d);
    p.ops.bytes(Output(p, g.keys, CtrAt(p.ops, g.ctr, u / p.ops.width)))[u % p.ops.width]
  }

  /** Byte t of the stream: draw t / Span supplies it, at offset t % Span. */
  function StreamByte<V(!new)>(cfg: Config<V>, entropy: Entropy<V>, t: nat): Byte
    requires cfg.Valid()
  {
    SpanPositive(cfg);
    SeedByte(cfg.p, entropy(t / cfg.Span()), t % cfg.Span())
  }

  lemma SpanPositive<V(!new)>(cfg: Config<V>)
    requires cfg.Valid()
    ensures cfg.Span() > 0
  {
  }

  /** The n stream bytes from position t on. */
  function Stream<V(!new)>(cfg: Config<V>, entropy: Entropy<V>, t: nat, n: nat): (s: seq<Byte>)
    requires cfg.Valid()
    ensures |s| == n
    ensures forall i | 0 <= i < n :: s[i] == StreamByte(cfg, entropy, t + i)
  {
    seq(n, i requires 0 <= i < n => StreamByte(cfg, entropy, t + i))
  }

  lemma StreamConcat<V(!new)>(cfg: Config<V>, entropy: Entropy<V>, t: nat, m: nat, n: nat)
    requires cfg.Valid()
    ensures Stream(cfg, entropy, t, m) + Stream(cfg, entropy, t + m, n) == Stream(cfg, entropy, t, m + n)
  {
  }

  lemma StreamSplit<V(!new)>(cfg: Config<V>, entropy: Entropy<V>, t: nat, n: nat, m: nat)
    requires cfg.Valid() && m <= n
    ensures Stream(cfg, entropy, t, n)[..m] == Stream(cfg, entropy, t, m)
    ensures Stream(cfg, entropy, t, n)[m..] == Stream(cfg, entropy, t + m, n - m)
  {
  }

  lemma SeedByteIs<V(!new)>(p: Params<V>, d: Draw<V>, u: nat, i: nat, k: nat)
    requires p.Valid() && u / p.ops.width == i && u % p.ops.width == k
    ensures var g := Seeded(p, d);
            SeedByte(p, d, u) == p.ops.bytes(Output(p, g.keys, CtrAt(p.ops, g.ctr, i)))[k]
  {
    hide Output, CtrAt, Seeded;
  }

  lemma StreamByteIs<V(!new)>(cfg: Config<V>, entropy: Entropy<V>, t: nat, e: nat, u: nat)
    requires cfg.Valid() && cfg.Span() > 0 && t / cfg.Span() == e && t % cfg.Span() == u
    ensures cfg.p.Valid()
    ensures StreamByte(cfg, entropy, t) == SeedByte(cfg.p, entropy(e), u)
  {
    hide SeedByte;
  }

  // The structure and its operations

  /** struct randp. */
  datatype PoolState<V> = PoolState(prng: Prng<V>, bytes: seq<Byte>, countdown: int, remaining: int)

  /** The structure together with what has happened to it: draws taken, refills made, bytes handed out. */
  datatype Session<V> = Session(pool: PoolState<V>, drawn: nat, refills: nat, served: nat)

  /** Memory as the allocation gives it, and as a fork leaves it in the child. */
  function ZeroPool<V(!new)>(cfg: Config<V>): PoolState<V> {
    PoolState(Prng(seq(cfg.p.numKeys, _ => cfg.p.ops.zero), cfg.p.ops.zero), seq(cfg.poolSize, _ => 0), 0, 0)
  }

  function Start<V(!new)>(cfg: Config<V>): Session<V> {
    Session(ZeroPool(cfg), 0, 0, 0)
  }

  ghost predicate WellFormed<V(!new)>(cfg: Config<V>, s: Session<V>) {
    && cfg.Valid()
    && |s.pool.bytes| == cfg.poolSize
    && 0 <= s.pool.remaining <= cfg.poolSize
    && 0 <= s.pool.countdown < cfg.interval
  }

  /** True when the next refill calls getentropy. */
  predicate ReseedDue<V>(s: Session<V>) {
    s.pool.countdown == 0
  }

  /** randp_regen. */
  function Regen<V(!new)>(cfg: Config<V>, entropy: Entropy<V>, s: Session<V>): (s': Session<V>)
    requires WellFormed(cfg, s)
    ensures WellFormed(cfg, s') && s'.pool.remaining == cfg.poolSize && s'.served == s.served
  {
    var due := ReseedDue(s);
    var prng := if due then Seeded(cfg.p, entropy(s.drawn)) else s.pool.prng;
    var countdown := if due then cfg.interval else s.pool.countdown;
    var (blocks, prng') := Fill(cfg.p, prng, cfg.NumBlocks());
    FillAt(cfg.p, prng, cfg.NumBlocks());
    Session(PoolState(prng', Flatten(cfg.p.ops, blocks), countdown - 1, cfg.poolSize),
            if due then s.drawn + 1 else s.drawn, s.refills + 1, s.served)
  }

  function Min(a: int, b: int): int { if a < b then a else b }

  /** Hands out at most n bytes of what the pool holds and wipes them. */
  function Take<V(!new)>(cfg: Config<V>, s: Session<V>, n: nat): (r: (Session<V>, seq<Byte>))
    requires WellFormed(cfg, s)
    ensures WellFormed(cfg, r.0) && |r.1| == Min(n, s.pool.remaining)
    ensures r.0.served == s.served + |r.1| && r.0.pool.remaining == s.pool.remaining - |r.1|
  {
    var pool := s.pool;
    var src := cfg.poolSize - pool.remaining;
    var m := Min(n, pool.remaining);
    var wiped := pool.bytes[..src] + seq(m, _ => 0) + pool.bytes[src + m..];
    (s.(pool := pool.(bytes := wiped, remaining := pool.remaining - m), served := s.served + m),
     pool.bytes[src..src + m])
  }

  /** One iteration of the loop of randp_bytes, with n bytes still to deliver. */
  function Iterate<V(!new)>(cfg: Config<V>, entropy: Entropy<V>, s: Session<V>, n: nat): (r: (Session<V>, seq<Byte>))
    requires WellFormed(cfg, s)
    ensures WellFormed(cfg, r.0) && |r.1| <= n && (n > 0 ==> |r.1| > 0)
  {
    Take(cfg, if s.pool.remaining == 0 then Regen(cfg, entropy, s) else s, n)
  }

  /** randp_bytes. */
  function Request<V(!new)>(cfg: Config<V>, entropy: Entropy<V>, s: Session<V>, n: nat): (r: (Session<V>, seq<Byte>))
    requires WellFormed(cfg, s)
    ensures WellFormed(cfg, r.0)
    decreases n
  {
    if n == 0 then (s, [])
    else
      var (s1, chunk) := Iterate(cfg, entropy, s, n);
      var (s2, rest) := Request(cfg, entropy, s1, n - |chunk|);
      (s2, chunk + rest)
  }

  // The invariant

  /** The number of refills already made from the current seeding. */
  function RefillsOfSeed<V(!new)>(cfg: Config<V>, s: Session<V>): int {
    if s.pool.countdown == 0 then 0 else cfg.interval - s.pool.countdown
  }

  /** Refills and draws agree with the bytes handed out. */
  ghost predicate Accounted<V(!new)>(cfg: Config<V>, s: Session<V>) {
    && s.served + s.pool.remaining == s.refills * cfg.poolSize
    && s.refills + s.pool.countdown == s.drawn * cfg.interval
  }

  /** The generator has made exactly the blocks of the refills since the last draw. */
  ghost predicate InStep<V(!new)>(cfg: Config<V>, entropy: Entropy<V>, s: Session<V>)
    requires WellFormed(cfg, s)
  {
    s.drawn > 0 ==>
      var g := Seeded(cfg.p, entropy(s.drawn - 1));
      s.pool.prng == Prng(g.keys, CtrAt(cfg.p.ops, g.ctr, (cfg.interval - s.pool.countdown) * cfg.NumBlocks()))
  }

  /** What was handed out is wiped, and what is left is the rest of the current refill. */
  ghost predicate Buffered<V(!new)>(cfg: Config<V>, entropy: Entropy<V>, s: Session<V>)
    requires WellFormed(cfg, s)
  {
    var used := cfg.poolSize - s.pool.remaining;
    && (forall i | 0 <= i < used :: s.pool.bytes[i] == 0)
    && s.pool.bytes[used..] == Stream(cfg, entropy, s.served, s.pool.remaining)
  }

  ghost predicate Inv<V(!new)>(cfg: Config<V>, entropy: Entropy<V>, s: Session<V>)
    ensures Inv(cfg, entropy, s) ==> WellFormed(cfg, s)
  {
    && WellFormed(cfg, s)
    && Accounted(cfg, s)
    && InStep(cfg, entropy, s)
    && Buffered(cfg, entropy, s)
  }

  /** The invariant between two iterations, when at least one byte of the last refill has gone out. */
  ghost predicate AtRest<V(!new)>(cfg: Config<V>, entropy: Entropy<V>, s: Session<V>)
    ensures AtRest(cfg, entropy, s) ==> WellFormed(cfg, s) && cfg.Valid()
  {
    Inv(cfg, entropy, s) && s.pool.remaining < cfg.poolSize
  }

  lemma StartInv<V(!new)>(cfg: Config<V>, entropy: Entropy<V>)
    requires cfg.Valid()
    ensures AtRest(cfg, entropy, Start(cfg))
  {
  }

  /** Offset i of refill k of a seeding lies in block k * NumBlocks + i / width, and draw e covers it. */
  lemma Locate<V(!new)>(cfg: Config<V>, e: nat, k: nat, i: nat)
    requires cfg.Valid() && k < cfg.interval && i < cfg.poolSize
    ensures cfg.Span() > 0
    ensures ((e * cfg.interval + k) * cfg.poolSize + i) / cfg.Span() == e
    ensures ((e * cfg.interval + k) * cfg.poolSize + i) % cfg.Span() == k * cfg.poolSize + i
    ensures (k * cfg.poolSize + i) / cfg.p.ops.width == k * cfg.NumBlocks() + i / cfg.p.ops.width
    ensures (k * cfg.poolSize + i) % cfg.p.ops.width == i % cfg.p.ops.width
  {
    var n, w, size := cfg.NumBlocks(), cfg.p.ops.width, cfg.poolSize;
    var u := k * size + i;
    MulLe(0, k, size);
    MulLe(k + 1, cfg.interval, size);
    assert (k + 1) * size == k * size + size;
    assert size * cfg.interval == cfg.interval * size;
    assert (e * cfg.interval + k) * size == e * (cfg.interval * size) + k * size by {
      Expand(e, cfg.interval, k, size);
    }
    DivModUnique(e * cfg.Span() + u, cfg.Span(), e, u);
    DivModParts(i, w);
    assert k * size == (k * n) * w by {
      MulAssoc(k, n, w);
    }
    assert (k * n + i / w) * w == (k * n) * w + (i / w) * w;
    DivModUnique(u, w, k * n + i / w, i % w);
  }

  /** The counts as one refill changes them, with k refills already made from the draw it uses. */
  lemma NextRefill(refills: nat, countdown: nat, drawn: nat, size: nat, interval: nat)
    requires refills + countdown == drawn * interval && countdown < interval
    ensures (refills + 1) * size == refills * size + size
    ensures countdown > 0 ==> drawn > 0 && refills == (drawn - 1) * interval + (interval - countdown)
    ensures countdown == 0 ==> refills + interval == (drawn + 1) * interval
  {
    hide *;
    assert (refills + 1) * size == refills * size + size;
    assert (drawn + 1) * interval == drawn * interval + interval;
    if countdown > 0 {
      assert drawn > 0;
      assert (drawn - 1) * interval == drawn * interval - interval;
    }
  }

  lemma RegenAccounts<V(!new)>(cfg: Config<V>, entropy: Entropy<V>, s: Session<V>)
    requires Inv(cfg, entropy, s) && s.pool.remaining == 0
    ensures var s', k := Regen(cfg, entropy, s), RefillsOfSeed(cfg, s);
            && Accounted(cfg, s')
            && s'.drawn > 0
            && 0 <= k < cfg.interval
            && s'.pool.countdown == cfg.interval - (k + 1)
            && s.refills == (s'.drawn - 1) * cfg.interval + k
            && s.served == ((s'.drawn - 1) * cfg.interval + k) * cfg.poolSize
  {
    hide InStep, Buffered, Fill, Flatten, Seeded;
    NextRefill(s.refills, s.pool.countdown, s.drawn, cfg.poolSize, cfg.interval);
  }

  /** The generator that a refill starts from. */
  function RefillFrom<V(!new)>(cfg: Config<V>, entropy: Entropy<V>, s: Session<V>): Prng<V> {
    if ReseedDue(s) then Seeded(cfg.p, entropy(s.drawn)) else s.pool.prng
  }

  lemma RegenInStep<V(!new)>(cfg: Config<V>, entropy: Entropy<V>, s: Session<V>)
    requires Inv(cfg, entropy, s) && s.pool.remaining == 0
    ensures var s', k := Regen(cfg, entropy, s), RefillsOfSeed(cfg, s);
            && s'.drawn > 0 && k >= 0
            && var g := Seeded(cfg.p, entropy(s'.drawn - 1));
            && RefillFrom(cfg, entropy, s) == Prng(g.keys, CtrAt(cfg.p.ops, g.ctr, k * cfg.NumBlocks()))
            && InStep(cfg, entropy, s')
  {
    hide Fill, Flatten, Seeded, Buffered, Output;
    var s' := Regen(cfg, entropy, s);
    var k, n := RefillsOfSeed(cfg, s), cfg.NumBlocks();
    RegenAccounts(cfg, entropy, s);
    var g := Seeded(cfg.p, entropy(s'.drawn - 1));
    FillAt(cfg.p, RefillFrom(cfg, entropy, s), n);
    CtrAtAdd(cfg.p.ops, g.ctr, k * n, n);
    assert (k + 1) * n == k * n + n;
  }

  lemma RefillValid<V(!new)>(cfg: Config<V>)
    requires cfg.Valid()
    ensures cfg.p.ops.Valid() && cfg.NumBlocks() * cfg.p.ops.width == cfg.poolSize && cfg.p.ops.width > 0
  {
  }

  /** Byte i of a refill is byte i of the stream from the position the refill starts at. */
  lemma RefillByte<V(!new)>(cfg: Config<V>, entropy: Entropy<V>, e: nat, k: nat, i: nat)
    requires cfg.Valid() && k < cfg.interval && i < cfg.poolSize
    ensures var g, n := Seeded(cfg.p, entropy(e)), cfg.NumBlocks();
            var prng := Prng(g.keys, CtrAt(cfg.p.ops, g.ctr, k * n));
            var bytes := Flatten(cfg.p.ops, Fill(cfg.p, prng, n).0);
            && |bytes| == cfg.poolSize
            && bytes[i] == StreamByte(cfg, entropy, (e * cfg.interval + k) * cfg.poolSize + i)
  {
    hide *;
    var g, n, w := Seeded(cfg.p, entropy(e)), cfg.NumBlocks(), cfg.p.ops.width;
    var prng := Prng(g.keys, CtrAt(cfg.p.ops, g.ctr, k * n));
    var u := k * cfg.poolSize + i;
    Locate(cfg, e, k, i);
    StreamByteIs(cfg, entropy, (e * cfg.interval + k) * cfg.poolSize + i, e, u);
    SeedByteIs(cfg.p, entropy(e), u, k * n + i / w, i % w);
    FillAt(cfg.p, prng, n);
    RefillValid(cfg);
    FlattenAt(cfg.p.ops, Fill(cfg.p, prng, n).0, i);
    CtrAtAdd(cfg.p.ops, g.ctr, k * n, i / w);
  }

  /** A whole refill is the stream from the position it starts at. */
  lemma RefillIsStream<V(!new)>(cfg: Config<V>, entropy: Entropy<V>, e: nat, k: nat, prng: Prng<V>, t: nat)
    requires cfg.Valid() && k < cfg.interval && t == (e * cfg.interval + k) * cfg.poolSize
    requires var g := Seeded(cfg.p, entropy(e));
             prng == Prng(g.keys, CtrAt(cfg.p.ops, g.ctr, k * cfg.NumBlocks()))
    ensures Flatten(cfg.p.ops, Fill(cfg.p, prng, cfg.NumBlocks()).0) == Stream(cfg, entropy, t, cfg.poolSize)
  {
    hide Flatten, Fill, Stream, StreamByte, Seeded, CtrAt;
    var bytes := Flatten(cfg.p.ops, Fill(cfg.p, prng, cfg.NumBlocks()).0);
    var stream := Stream(cfg, entropy, t, cfg.poolSize);
    MulLe(0, e, cfg.interval);
    RefillByte(cfg, entropy, e, k, 0);
    forall i | 0 <= i < cfg.poolSize
      ensures bytes[i] == stream[i]
    {
      RefillByte(cfg, entropy, e, k, i);
    }
  }

  lemma RegenInv<V(!new)>(cfg: Config<V>, entropy: Entropy<V>, s: Session<V>)
    requires Inv(cfg, entropy, s) && s.pool.remaining == 0
    ensures Inv(cfg, entropy, Regen(cfg, entropy, s))
  {
    hide InStep, RefillsOfSeed, StreamByte, Seeded, Fill, Flatten, Stream, CtrAt;
    var s' := Regen(cfg, entropy, s);
    var k := RefillsOfSeed(cfg, s);
    RegenAccounts(cfg, entropy, s);
    RegenInStep(cfg, entropy, s);
    RefillIsStream(cfg, entropy, s'.drawn - 1, k, RefillFrom(cfg, entropy, s), s'.served);
    assert s'.pool.bytes[0..] == s'.pool.bytes;
  }

  lemma InStepDepends<V(!new)>(cfg: Config<V>, entropy: Entropy<V>, s: Session<V>, s': Session<V>)
    requires WellFormed(cfg, s) && WellFormed(cfg, s') && s'.drawn == s.drawn
    requires s'.pool.prng == s.pool.prng && s'.pool.countdown == s.pool.countdown
    ensures InStep(cfg, entropy, s') <==> InStep(cfg, entropy, s)
  {
  }

  /** What taking does to the bytes of the pool. */
  lemma TakeMoves<V(!new)>(cfg: Config<V>, s: Session<V>, n: nat)
    requires WellFormed(cfg, s)
    ensures var (s', chunk) := Take(cfg, s, n);
            var used, m := cfg.poolSize - s.pool.remaining, |chunk|;
            && chunk == s.pool.bytes[used..][..m]
            && s'.pool.bytes[used + m..] == s.pool.bytes[used..][m..]
            && s'.pool.bytes[..used + m] == s.pool.bytes[..used] + seq(m, _ => 0)
  {
  }

  /** Taking bytes keeps the invariant, and the bytes taken are the next ones of the stream. */
  lemma TakeInv<V(!new)>(cfg: Config<V>, entropy: Entropy<V>, s: Session<V>, n: nat)
    requires Inv(cfg, entropy, s)
    ensures var (s', chunk) := Take(cfg, s, n);
            Inv(cfg, entropy, s') && chunk == Stream(cfg, entropy, s.served, |chunk|)
  {
    hide Stream, StreamByte, InStep;
    var (s', chunk) := Take(cfg, s, n);
    var used, m := cfg.poolSize - s.pool.remaining, |chunk|;
    TakeMoves(cfg, s, n);
    InStepDepends(cfg, entropy, s, s');
    StreamSplit(cfg, entropy, s.served, s.pool.remaining, m);
    assert s'.pool.bytes[used + m..] == Stream(cfg, entropy, s'.served, s'.pool.remaining);
    forall i | 0 <= i < used + m
      ensures s'.pool.bytes[i] == 0
    {
      assert s'.pool.bytes[i] == s'.pool.bytes[..used + m][i];
    }
  }

  /** Every iteration keeps the invariant, moves at least one byte, and moves the next bytes of the stream. */
  lemma IterateInv<V(!new)>(cfg: Config<V>, entropy: Entropy<V>, s: Session<V>, n: nat)
    requires AtRest(cfg, entropy, s) && n > 0
    ensures var (s', chunk) := Iterate(cfg, entropy, s, n);
            && AtRest(cfg, entropy, s')
            && 0 < |chunk| <= n
            && s'.served == s.served + |chunk|
            && chunk == Stream(cfg, entropy, s.served, |chunk|)
  {
    if s.pool.remaining == 0 {
      RegenInv(cfg, entropy, s);
      TakeInv(cfg, entropy, Regen(cfg, entropy, s), n);
    } else {
      TakeInv(cfg, entropy, s, n);
    }
  }

  /** A request delivers the next n bytes of the stream. */
  lemma {:induction false} RequestDelivers<V(!new)>(cfg: Config<V>, entropy: Entropy<V>, s: Session<V>, n: nat)
    requires AtRest(cfg, entropy, s)
    ensures var (s', bytes) := Request(cfg, entropy, s, n);
            && AtRest(cfg, entropy, s')
            && s'.served == s.served + n
            && bytes == Stream(cfg, entropy, s.served, n)
    decreases n
  {
    hide Inv, AtRest, WellFormed, Iterate, StreamByte;
    if n != 0 {
      var (s1, chunk) := Iterate(cfg, entropy, s, n);
      IterateInv(cfg, entropy, s, n);
      RequestDelivers(cfg, entropy, s1, n - |chunk|);
      StreamConcat(cfg, entropy, s.served, |chunk|, n - |chunk|);
    }
  }

  /** With left bytes still to deliver after sofar, the request will end as the goal says. */
  ghost predicate OnTrack<V(!new)>(cfg: Config<V>, entropy: Entropy<V>, s: Session<V>, left: nat, sofar: seq<Byte>,
                                   goal: (Session<V>, seq<Byte>))
    requires WellFormed(cfg, s)
  {
    var (end, rest) := Request(cfg, entropy, s, left);
    end == goal.0 && sofar + rest == goal.1
  }

  lemma OnTrackStep<V(!new)>(cfg: Config<V>, entropy: Entropy<V>, s: Session<V>, left: nat, sofar: seq<Byte>,
                             goal: (Session<V>, seq<Byte>))
    requires WellFormed(cfg, s) && left > 0 && OnTrack(cfg, entropy, s, left, sofar, goal)
    ensures var (s', chunk) := Iterate(cfg, entropy, s, left);
            OnTrack(cfg, entropy, s', left - |chunk|, sofar + chunk, goal)
  {
    hide Iterate;
    var (s', chunk) := Iterate(cfg, entropy, s, left);
    var rest := Request(cfg, entropy, s', left - |chunk|).1;
    assert sofar + (chunk + rest) == (sofar + chunk) + rest;
  }

  lemma OnTrackEnds<V(!new)>(cfg: Config<V>, entropy: Entropy<V>, s: Session<V>, n: nat, bytes: seq<Byte>,
                             goal: (Session<V>, seq<Byte>))
    requires WellFormed(cfg, s)
    ensures OnTrack(cfg, entropy, s, 0, bytes, goal) <==> goal == (s, bytes)
    ensures OnTrack(cfg, entropy, s, n, [], Request(cfg, entropy, s, n))
  {
    assert bytes + [] == bytes;
    var rest := Request(cfg, entropy, s, n).1;
    assert [] + rest == rest;
  }

  // Whole runs

  function Total(sizes: seq<nat>): nat {
    if |sizes| == 0 then 0 else Total(sizes[..|sizes| - 1]) + sizes[|sizes| - 1]
  }

  /** A sequence of requests, and the concatenation of what they deliver. */
  function Run<V(!new)>(cfg: Config<V>, entropy: Entropy<V>, s: Session<V>, sizes: seq<nat>)
    : (r: (Session<V>, seq<Byte>))
    requires WellFormed(cfg, s)
    ensures WellFormed(cfg, r.0)
  {
    if |sizes| == 0 then (s, [])
    else
      var (s1, before) := Run(cfg, entropy, s, sizes[..|sizes| - 1]);
      var (s2, bytes) := Request(cfg, entropy, s1, sizes[|sizes| - 1]);
      (s2, before + bytes)
  }

  lemma {:induction false} RunFrom<V(!new)>(cfg: Config<V>, entropy: Entropy<V>, s: Session<V>, sizes: seq<nat>)
    requires AtRest(cfg, entropy, s)
    ensures var (s', bytes) := Run(cfg, entropy, s, sizes);
            && AtRest(cfg, entropy, s')
            && s'.served == s.served + Total(sizes)
            && bytes == Stream(cfg, entropy, s.served, Total(sizes))
    decreases |sizes|
  {
    hide Inv, AtRest, WellFormed, Request, StreamByte;
    if |sizes| != 0 {
      var most, last := sizes[..|sizes| - 1], sizes[|sizes| - 1];
      RunFrom(cfg, entropy, s, most);
      RequestDelivers(cfg, entropy, Run(cfg, entropy, s, most).0, last);
      StreamConcat(cfg, entropy, s.served, Total(most), last);
    }
  }

  /** From a fresh structure, any requests deliver together the stream's first Total(sizes) bytes. */
  lemma RunDeliversPrefix<V(!new)>(cfg: Config<V>, entropy: Entropy<V>, sizes: seq<nat>)
    requires cfg.Valid()
    ensures Run(cfg, entropy, Start(cfg), sizes).1 == Stream(cfg, entropy, 0, Total(sizes))
  {
    StartInv(cfg, entropy);
    RunFrom(cfg, entropy, Start(cfg), sizes);
  }

  /** Neither the cuts between requests nor the pool size matter, as long as a seeding covers the same bytes. */
  lemma CutsDoNotMatter<V(!new)>(cfg: Config<V>, cfg': Config<V>, entropy: Entropy<V>,
                                  sizes: seq<nat>, sizes': seq<nat>)
    requires cfg.Valid() && cfg'.Valid() && cfg.p == cfg'.p && cfg.Span() == cfg'.Span()
    requires Total(sizes) == Total(sizes')
    ensures Run(cfg, entropy, Start(cfg), sizes).1 == Run(cfg', entropy, Start(cfg'), sizes').1
  {
    RunDeliversPrefix(cfg, entropy, sizes);
    RunDeliversPrefix(cfg', entropy, sizes');
  }

  // Accounting

  lemma FewestPortions(served: nat, remaining: int, refills: nat, countdown: int, drawn: nat, size: nat, interval: nat)
    requires served + remaining == refills * size && 0 <= remaining < size
    requires refills + countdown == drawn * interval && 0 <= countdown < interval
    ensures size * interval > 0
    ensures refills == CeilDiv(served, size)
    ensures drawn == CeilDiv(served, size * interval)
  {
    hide *;
    var span := size * interval;
    MulLe(1, size, interval);
    CeilDivUnique(served, size, refills);
    assert drawn * span == (drawn * interval) * size by {
      assert span == interval * size;
      MulAssoc(drawn, interval, size);
    }
    assert (refills + countdown) * size == refills * size + countdown * size;
    MulLe(0, countdown, size);
    MulLe(countdown, interval - 1, size);
    assert (interval - 1) * size == span - size;
    CeilDivUnique(served, span, drawn);
  }

  /** Refills and draws are the fewest that could have supplied the bytes. */
  lemma Accounting<V(!new)>(cfg: Config<V>, entropy: Entropy<V>, s: Session<V>)
    requires AtRest(cfg, entropy, s)
    ensures cfg.Span() > 0
    ensures s.refills == CeilDiv(s.served, cfg.poolSize)
    ensures s.drawn == CeilDiv(s.served, cfg.Span())
  {
    hide InStep, Buffered, CeilDiv;
    FewestPortions(s.served, s.pool.remaining, s.refills, s.pool.countdown, s.drawn, cfg.poolSize, cfg.interval);
  }

  /** After any requests from a fresh structure: ceil(T / P) refills and ceil(T / (P R)) calls of getentropy. */
  lemma RunAccounting<V(!new)>(cfg: Config<V>, entropy: Entropy<V>, sizes: seq<nat>)
    requires cfg.Valid()
    ensures cfg.Span() > 0
    ensures var s := Run(cfg, entropy, Start(cfg), sizes).0;
            && s.served == Total(sizes)
            && s.refills == CeilDiv(Total(sizes), cfg.poolSize)
            && s.drawn == CeilDiv(Total(sizes), cfg.Span())
  {
    StartInv(cfg, entropy);
    RunFrom(cfg, entropy, Start(cfg), sizes);
    Accounting(cfg, entropy, Run(cfg, entropy, Start(cfg), sizes).0);
  }
}
