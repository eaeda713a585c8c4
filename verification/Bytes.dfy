/** Bytes, and the little-endian reading of byte strings that x86 memory gives to the fixed-width words. */
module Bytes {
  import opened Arithmetic

  type Byte = bv8

  /** 256^k, the number of values a k-byte word can hold. */
  function Pow256(k: nat): (p: nat)
    ensures p > 0
  {
    if k == 0 then 1 else 256 * Pow256(k - 1)
  }

  /** The unsigned integer stored at a byte string, least significant byte first. */
  function Word(s: seq<Byte>): (n: nat)
    ensures n < Pow256(|s|)
  {
    if |s| == 0 then 0 else s[0] as nat + 256 * Word(s[1..])
  }

  lemma AppendBit(b: Byte)
    requires b as nat < 128
    ensures (b << 1) as nat == 2 * (b as nat)
    ensures ((b << 1) | 1) as nat == 2 * (b as nat) + 1
  {
  }

  /** The byte with this value. */
  function ToByte(n: nat): (b: Byte)
    requires n < 256
    ensures b as nat == n
  {
    if n == 0 then 0
    else
      var b := ToByte(n / 2);
      AppendBit(b);
      if n % 2 == 0 then b << 1 else (b << 1) | 1
  }

  lemma ByteInjective(a: Byte, b: Byte)
    requires a as nat == b as nat
    ensures a == b
  {
  }

  /** The k bytes that store n modulo 256^k, least significant byte first. */
  function Store(n: nat, k: nat): (s: seq<Byte>)
    ensures |s| == k
  {
    if k == 0 then [] else [ToByte(n % 256)] + Store(n / 256, k - 1)
  }

  lemma WordCons(b: Byte, s: seq<Byte>)
    ensures Word([b] + s) == b as nat + 256 * Word(s)
  {
    assert ([b] + s)[1..] == s;
  }

  lemma StoreCons(b: Byte, n: nat, k: nat)
    ensures Store(b as nat + 256 * n, k + 1) == [b] + Store(n, k)
  {
    var m := b as nat + 256 * n;
    assert m % 256 == b as nat && m / 256 == n;
    ByteInjective(b, ToByte(b as nat));
  }

  lemma {:induction false} StoreWord(s: seq<Byte>)
    ensures Store(Word(s), |s|) == s
  {
    if |s| != 0 {
      StoreWord(s[1..]);
      StoreCons(s[0], Word(s[1..]), |s| - 1);
      WordCons(s[0], s[1..]);
      assert s == [s[0]] + s[1..];
    }
  }

  lemma {:induction false} WordStore(n: nat, k: nat)
    ensures Word(Store(n, k)) == n % Pow256(k)
  {
    if k != 0 {
      var s := Store(n, k);
      WordStore(n / 256, k - 1);
      assert s[1..] == Store(n / 256, k - 1);
      DivModSplit(n, 256, Pow256(k - 1));
    }
  }

  lemma {:induction false} Pow256Add(a: nat, b: nat)
    ensures Pow256(a + b) == Pow256(a) * Pow256(b)
  {
    if a != 0 {
      Pow256Add(a - 1, b);
      assert 256 * (Pow256(a - 1) * Pow256(b)) == (256 * Pow256(a - 1)) * Pow256(b);
    }
  }

  lemma WordSizes()
    ensures Pow256(4) == 0x1_0000_0000
    ensures Pow256(8) == 0x1_0000_0000_0000_0000
  {
    assert Pow256(4) == 0x1_0000_0000;
    Pow256Add(4, 4);
  }

  lemma WordNil()
    ensures Word([]) == 0 && Pow256(0) == 1
  {
  }

  lemma Pow256Step(k: nat)
    ensures Pow256(k + 1) == 256 * Pow256(k)
  {
  }

  /** Reading two adjacent words joins them with the word at the lower address in the low digits. */
  lemma {:induction false} WordConcat(a: seq<Byte>, b: seq<Byte>)
    ensures Word(a + b) == Word(a) + Pow256(|a|) * Word(b)
  {
    hide *;
    if |a| == 0 {
      WordNil();
      assert a + b == b && a == [];
    } else {
      var rest := a[1..];
      WordConcat(rest, b);
      assert a == [a[0]] + rest && a + b == [a[0]] + (rest + b);
      WordCons(a[0], rest);
      WordCons(a[0], rest + b);
      Pow256Step(|rest|);
      Distribute(a[0] as nat, Word(rest), Pow256(|rest|), Word(b));
    }
  }

  lemma Distribute(d: nat, low: nat, p: nat, high: nat)
    ensures d + 256 * (low + p * high) == (d + 256 * low) + (256 * p) * high
  {
    MulAssoc(256, p, high);
  }

  /** Distinct byte strings of one length are distinct words. */
  lemma WordInjective(a: seq<Byte>, b: seq<Byte>)
    requires |a| == |b| && Word(a) == Word(b)
    ensures a == b
  {
    StoreWord(a);
    StoreWord(b);
  }
}
