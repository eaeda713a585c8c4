/**
 The counter generator of the AES and VAES builds, as one definition over the block type.

 A BlockOps value gives a block type the operations that the C code gets from its intrinsics, in the way the
 C++ benchmark class is a template over __m128i and __m256i.
 */
module Generator {
  import opened Arithmetic
  import opened Bytes

  datatype BlockOps<!V(!new)> = BlockOps(
    width: nat,              // bytes in a block
    zero: V,
    inc: V,                  // what each output adds to the counter
    add: (V, V) -> V,        // lane-wise addition modulo 2^64
    xor: (V, V) -> V,
    rectify: V -> V,
    encRound: (V, V) -> V,   // data, round key
    decRound: (V, V) -> V,
    bytes: V -> seq<Byte>    // the block as it lies in memory
  ) {
    ghost predicate Valid() {
      && (width == 16 || width == 32)
      && (forall v :: |bytes(v)| == width)
      && (forall i | 0 <= i < width :: bytes(zero)[i] == 0)
    }
  }

  /** The compile-time choices of a generator: enc or dec rounds, Davies-Meyer or not, keys, rounds per key. */
  datatype Params<!V(!new)> = Params(ops: BlockOps<V>, enc: bool, dm: bool, numKeys: nat, roundsPerKey: nat) {
    ghost predicate Valid() {
      && ops.Valid()
      && numKeys >= 1
      && roundsPerKey >= 1
      && numKeys * roundsPerKey >= 3
    }
  }

  /** What one call of getentropy leaves in a generator's memory. */
  datatype Draw<V> = Draw(keys: seq<V>, ctr: V)

  datatype Prng<V> = Prng(keys: seq<V>, ctr: V)

  /** One round in the chosen direction. */
  function Round<V(!new)>(p: Params<V>, a: V, key: V): V {
    if p.enc then p.ops.encRound(a, key) else p.ops.decRound(a, key)
  }

  /** n rounds under one key. */
  function Rounds<V(!new)>(p: Params<V>, a: V, key: V, n: nat): V {
    if n == 0 then a else Round(p, Rounds(p, a, key, n - 1), key)
  }

  /** Every key in turn, each for roundsPerKey rounds. */
  function Cipher<V(!new)>(p: Params<V>, a: V, keys: seq<V>): V {
    if |keys| == 0 then a
    else Rounds(p, Cipher(p, a, keys[..|keys| - 1]), keys[|keys| - 1], p.roundsPerKey)
  }

  /** The output block for a counter value, with the counter fed forward under Davies-Meyer. */
  function Output<V(!new)>(p: Params<V>, keys: seq<V>, ctr: V): V {
    if p.dm then p.ops.xor(Cipher(p, ctr, keys), ctr) else Cipher(p, ctr, keys)
  }

  /** Rounds under given round keys, one each. */
  function Trail<V(!new)>(p: Params<V>, a: V, roundKeys: seq<V>): V {
    if |roundKeys| == 0 then a
    else Round(p, Trail(p, a, roundKeys[..|roundKeys| - 1]), roundKeys[|roundKeys| - 1])
  }

  lemma {:induction false} TrailRepeats<V(!new)>(p: Params<V>, a: V, roundKeys: seq<V>, key: V, n: nat)
    ensures Trail(p, a, roundKeys + seq(n, _ => key)) == Rounds(p, Trail(p, a, roundKeys), key, n)
  {
    hide Round;
    if n == 0 {
      assert roundKeys + seq(0, _ => key) == roundKeys;
    } else {
      TrailRepeats(p, a, roundKeys, key, n - 1);
      var all := roundKeys + seq(n, _ => key);
      assert all[..|all| - 1] == roundKeys + seq(n - 1, _ => key);
    }
  }

  /** The key of round i when every key serves n rounds. */
  function RoundKeys<V(!new)>(keys: seq<V>, n: nat): (s: seq<V>)
    requires n > 0
    ensures |s| == |keys| * n
    ensures forall i | 0 <= i < |s| :: i / n < |keys| && s[i] == keys[i / n]
  {
    RoundKeyIndex(|keys|, n);
    seq(|keys| * n, i requires 0 <= i < |keys| * n => keys[i / n])
  }

  lemma RoundKeyIndex(k: nat, n: nat)
    requires n > 0
    ensures k * n >= 0
    ensures forall i | 0 <= i < k * n :: i / n < k
  {
    MulLe(0, k, n);
    forall i | 0 <= i < k * n
      ensures i / n < k
    {
      DivModParts(i, n);
      if i / n >= k {
        MulLe(k, i / n, n);
      }
    }
  }

  lemma RoundKeysMore<V(!new)>(keys: seq<V>, n: nat)
    requires n > 0 && |keys| > 0
    ensures RoundKeys(keys, n) ==
            RoundKeys(keys[..|keys| - 1], n) + seq(n, _ => keys[|keys| - 1])
  {
    var k := |keys| - 1;
    Product(|keys|, n);
    var all, most := RoundKeys(keys, n), RoundKeys(keys[..k], n);
    forall i | 0 <= i < |all|
      ensures all[i] == (most + seq(n, _ => keys[k]))[i]
    {
      if i >= k * n {
        DivModUnique(i, n, k, i - k * n);
      }
    }
  }

  /** The cipher is |keys| * roundsPerKey rounds in all, and round i of them is under key i / roundsPerKey. */
  lemma {:induction false} CipherIsTrail<V(!new)>(p: Params<V>, a: V, keys: seq<V>)
    requires p.roundsPerKey > 0
    ensures Cipher(p, a, keys) == Trail(p, a, RoundKeys(keys, p.roundsPerKey))
    decreases |keys|
  {
    hide Round, Rounds, RoundKeys;
    if |keys| == 0 {
      assert RoundKeys(keys, p.roundsPerKey) == [];
    } else {
      var most := keys[..|keys| - 1];
      CipherIsTrail(p, a, most);
      RoundKeysMore(keys, p.roundsPerKey);
      TrailRepeats(p, a, RoundKeys(most, p.roundsPerKey), keys[|keys| - 1], p.roundsPerKey);
    }
  }

  /** The generator that a draw of entropy gives: every key rectified, the counter as drawn. */
  function Seeded<V(!new)>(p: Params<V>, d: Draw<V>): (g: Prng<V>)
    ensures |g.keys| == |d.keys|
    ensures forall i | 0 <= i < |d.keys| :: g.keys[i] == p.ops.rectify(d.keys[i])
    ensures g.ctr == d.ctr
  {
    Prng(seq(|d.keys|, i requires 0 <= i < |d.keys| => p.ops.rectify(d.keys[i])), d.ctr)
  }

  /** The counter after i increments. */
  function CtrAt<V(!new)>(ops: BlockOps<V>, ctr: V, i: nat): V {
    if i == 0 then ctr else ops.add(CtrAt(ops, ctr, i - 1), ops.inc)
  }

  lemma {:induction false} CtrAtAdd<V(!new)>(ops: BlockOps<V>, ctr: V, i: nat, j: nat)
    ensures CtrAt(ops, CtrAt(ops, ctr, i), j) == CtrAt(ops, ctr, i + j)
  {
    if j != 0 {
      CtrAtAdd(ops, ctr, i, j - 1);
    }
  }

  /** One output, with the counter updated in the generator's state. */
  function Next<V(!new)>(p: Params<V>, g: Prng<V>): (V, Prng<V>) {
    (Output(p, g.keys, g.ctr), Prng(g.keys, p.ops.add(g.ctr, p.ops.inc)))
  }

  /** n outputs, one at a time. */
  function Fill<V(!new)>(p: Params<V>, g: Prng<V>, n: nat): (seq<V>, Prng<V>) {
    if n == 0 then ([], g)
    else
      var (blocks, g') := Fill(p, g, n - 1);
      var (block, g'') := Next(p, g');
      (blocks + [block], g'')
  }

  /** Output i of a fill depends on the state only through the keys and the counter i increments on. */
  lemma {:induction false} FillAt<V(!new)>(p: Params<V>, g: Prng<V>, n: nat)
    ensures |Fill(p, g, n).0| == n
    ensures forall i | 0 <= i < n :: Fill(p, g, n).0[i] == Output(p, g.keys, CtrAt(p.ops, g.ctr, i))
    ensures Fill(p, g, n).1 == Prng(g.keys, CtrAt(p.ops, g.ctr, n))
  {
    if n != 0 {
      FillAt(p, g, n - 1);
    }
  }

  /** Filling n blocks and then m more is filling n + m blocks at once. */
  lemma FillCompose<V(!new)>(p: Params<V>, g: Prng<V>, n: nat, m: nat)
    ensures var (first, g1) := Fill(p, g, n);
            var (second, g2) := Fill(p, g1, m);
            Fill(p, g, n + m) == (first + second, g2)
  {
    var (first, g1) := Fill(p, g, n);
    var (second, g2) := Fill(p, g1, m);
    FillAt(p, g, n);
    FillAt(p, g1, m);
    FillAt(p, g, n + m);
    CtrAtAdd(p.ops, g.ctr, n, m);
    forall i | 0 <= i < m
      ensures Fill(p, g, n + m).0[n + i] == second[i]
    {
      CtrAtAdd(p.ops, g.ctr, n, i);
    }
    assert Fill(p, g, n + m).0 == first + second;
  }

  /** The bytes of consecutive blocks, as they lie in memory. */
  function Flatten<V(!new)>(ops: BlockOps<V>, blocks: seq<V>): (s: seq<Byte>)
    requires ops.Valid()
    ensures |s| == |blocks| * ops.width
  {
    if |blocks| == 0 then []
    else
      Product(|blocks|, ops.width);
      Flatten(ops, blocks[..|blocks| - 1]) + ops.bytes(blocks[|blocks| - 1])
  }

  lemma Product(n: nat, w: nat)
    requires n > 0
    ensures n * w == (n - 1) * w + w
  {
  }

  /** Byte u of consecutive blocks is byte u % width of block u / width. */
  lemma {:induction false} FlattenAt<V(!new)>(ops: BlockOps<V>, blocks: seq<V>, u: nat)
    requires ops.Valid() && u < |blocks| * ops.width
    ensures u / ops.width < |blocks|
    ensures Flatten(ops, blocks)[u] == ops.bytes(blocks[u / ops.width])[u % ops.width]
  {
    var n, w := |blocks|, ops.width;
    Product(n, w);
    if u < (n - 1) * w {
      FlattenAt(ops, blocks[..n - 1], u);
    } else {
      DivModUnique(u, w, n - 1, u - (n - 1) * w);
    }
  }

  // Davies-Meyer

  lemma RoundsIgnoreDm<V(!new)>(p: Params<V>, q: Params<V>, a: V, key: V, n: nat)
    requires q == p.(dm := q.dm)
    ensures Rounds(p, a, key, n) == Rounds(q, a, key, n)
  {
  }

  lemma {:induction false} CipherIgnoresDm<V(!new)>(p: Params<V>, q: Params<V>, a: V, keys: seq<V>)
    requires q == p.(dm := q.dm)
    ensures Cipher(p, a, keys) == Cipher(q, a, keys)
    decreases |keys|
  {
    hide Rounds;
    if |keys| > 0 {
      CipherIgnoresDm(p, q, a, keys[..|keys| - 1]);
      RoundsIgnoreDm(p, q, Cipher(p, a, keys[..|keys| - 1]), keys[|keys| - 1], p.roundsPerKey);
    }
  }

  /** Block i filled with Davies-Meyer is the block filled without it, xor the counter of that block. */
  lemma DaviesMeyerFeedsForward<V(!new)>(p: Params<V>, q: Params<V>, g: Prng<V>, n: nat, i: nat)
    requires p.dm && !q.dm && q == p.(dm := false) && i < n
    ensures |Fill(p, g, n).0| == |Fill(q, g, n).0| == n
    ensures Fill(p, g, n).0[i] == p.ops.xor(Fill(q, g, n).0[i], CtrAt(p.ops, g.ctr, i))
    ensures Fill(p, g, n).1 == Fill(q, g, n).1
  {
    hide Cipher, Fill, CtrAt;
    FillAt(p, g, n);
    FillAt(q, g, n);
    CipherIgnoresDm(p, q, CtrAt(p.ops, g.ctr, i), g.keys);
  }
}
