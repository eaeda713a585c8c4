/** The generator's structure in memory and the functions that update it. */
module CounterPrng {
  import opened Bytes
  import opened Arithmetic
  import opened Generator

  class CtrPrng<V(!new)> {
    const p: Params<V>
    const keys: array<V>
    var ctr: V

    ghost predicate Valid()
      reads this, keys
    {
      p.Valid() && keys.Length == p.numKeys
    }

    /** The value of the structure. */
    ghost function State(): Prng<V>
      reads this, keys
    {
      Prng(keys[..], ctr)
    }

    /** Fresh memory: all zeros. */
    constructor (p: Params<V>)
      requires p.Valid()
      ensures Valid() && this.p == p && fresh(keys)
      ensures State() == Prng(seq(p.numKeys, _ => p.ops.zero), p.ops.zero)
    {
      this.p := p;
      this.keys := new V[p.numKeys](_ => p.ops.zero);
      this.ctr := p.ops.zero;
    }

    /** Overwrites the structure with entropy, then adjusts each key in place. */
    method Reseed(draw: Draw<V>)
      requires Valid() && |draw.keys| == p.numKeys
      modifies this`ctr, keys
      ensures State() == Seeded(p, draw)
    {
      forall i | 0 <= i < p.numKeys {
        keys[i] := draw.keys[i];
      }
      ctr := draw.ctr;
      for i := 0 to p.numKeys
        invariant ctr == draw.ctr
        invariant forall j | 0 <= j < i :: keys[j] == p.ops.rectify(draw.keys[j])
        invariant forall j | i <= j < p.numKeys :: keys[j] == draw.keys[j]
      {
        keys[i] := p.ops.rectify(keys[i]);
      }
    }

    /** The nested loops over keys and rounds. */
    method Encipher(input: V) returns (a: V)
      requires Valid()
      ensures a == Cipher(p, input, keys[..])
    {
      a := input;
      for k := 0 to p.numKeys
        invariant a == Cipher(p, input, keys[..k])
      {
        ghost var before := a;
        for r := 0 to p.roundsPerKey
          invariant a == Rounds(p, before, keys[k], r)
        {
          a := if p.enc then p.ops.encRound(a, keys[k]) else p.ops.decRound(a, keys[k]);
        }
        assert keys[..k + 1][..k] == keys[..k];
      }
      assert keys[..p.numKeys] == keys[..];
    }

    /** Fills dst with n outputs.  The counter stays in a local variable until the loop ends. */
    method FillBlocks(dst: array<Byte>, n: nat)
      requires Valid() && n * p.ops.width <= dst.Length && dst as object != keys
      modifies this`ctr, dst
      ensures dst[..n * p.ops.width] == Flatten(p.ops, Fill(p, old(State()), n).0)
      ensures dst[n * p.ops.width..] == old(dst[n * p.ops.width..])
      ensures State() == Fill(p, old(State()), n).1
    {
      var ctr := this.ctr;
      var w := p.ops.width;
      ghost var start := State();
      for i := 0 to n
        invariant this.ctr == old(this.ctr) && keys[..] == start.keys
        invariant 0 <= i * w <= n * w
        invariant Fill(p, start, i).1 == Prng(start.keys, ctr)
        invariant |Fill(p, start, i).0| == i
        invariant dst[..i * w] == Flatten(p.ops, Fill(p, start, i).0)
        invariant dst[n * w..] == old(dst[n * w..])
      {
        var block := Encipher(ctr);
        if p.dm {
          block := p.ops.xor(block, ctr);
        }
        Product(i + 1, w);
        MulLe(i + 1, n, w);
        WriteBlock(dst, i * w, block);
        assert Fill(p, start, i + 1).0[..i] == Fill(p, start, i).0;
        ctr := p.ops.add(ctr, p.ops.inc);
      }
      this.ctr := ctr;
    }

    /** Stores one vector register at an offset of dst. */
    method WriteBlock(dst: array<Byte>, offset: nat, block: V)
      requires Valid() && offset + p.ops.width <= dst.Length && dst as object != keys
      modifies dst
      ensures dst[..offset + p.ops.width] == old(dst[..offset]) + p.ops.bytes(block)
      ensures dst[offset + p.ops.width..] == old(dst[offset + p.ops.width..])
      ensures Valid()
    {
      var s := p.ops.bytes(block);
      assert |s| == p.ops.width;
      forall j | 0 <= j < p.ops.width {
        dst[offset + j] := s[j];
      }
    }
  }
}
