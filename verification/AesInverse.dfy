/**
 How far AESDEC is from undoing AESENC under the same round key.

 AESENC adds its key after MixColumns, and the inverse of AESDEC adds it before; so the two agree on few blocks.
 A block with one byte changed changes one column of the first and all four columns of the second.
 */
module AesInverse {
  import opened Bytes
  import opened GaloisField
  import opened MixColumns
  import opened Aes
  import opened Generator
  import opened Aes128Generator

  /** AESDEC gives back the block that AESENC was applied to. */
  predicate Recovered(a: Block, k: Block) {
    DecRound(EncRound(a, k), k) == a
  }

  /** It does so just when the key may as well be added before the round's linear part as after it. */
  lemma RecoveredExactly(a: Block, k: Block)
    ensures Recovered(a, k) <==>
            Xor(MixAll(SubBytes(ShiftRows(a))), k) == ShiftRows(SubBytes(MixAll(Xor(a, k))))
  {
    hide Xor, MixAll, SubBytes, ShiftRows, InvMixAll, InvSubBytes, InvShiftRows;
    DecRoundPermutes(EncRound(a, k), k);
    DecRoundPermutes(a, k);
  }

  // Changing one byte

  function WithRow(c: Column, r: nat, v: Byte): Column
    requires r < 4
  {
    if r == 0 then c.(b0 := v) else if r == 1 then c.(b1 := v) else if r == 2 then c.(b2 := v) else c.(b3 := v)
  }

  /** The block with byte i, counted in memory order, replaced. */
  function WithByte(a: Block, i: nat, v: Byte): Block
    requires i < 16
  {
    if i < 4 then a.(c0 := WithRow(a.c0, i, v))
    else if i < 8 then a.(c1 := WithRow(a.c1, i - 4, v))
    else if i < 12 then a.(c2 := WithRow(a.c2, i - 8, v))
    else a.(c3 := WithRow(a.c3, i - 12, v))
  }

  /** The columns moved round by one. */
  function Turn(a: Block): Block {
    Block(a.c1, a.c2, a.c3, a.c0)
  }

  lemma RoundTurns(a: Block, k: Block)
    ensures EncRound(Turn(a), Turn(k)) == Turn(EncRound(a, k))
    ensures DecRound(Turn(a), Turn(k)) == Turn(DecRound(a, k))
  {
    hide SubColumn, InvSubColumn, MixColumn, InvMixColumn, AddColumn;
  }

  lemma RecoveredTurns(a: Block, k: Block)
    ensures Recovered(Turn(a), Turn(k)) <==> Recovered(a, k)
  {
    hide EncRound, DecRound;
    RoundTurns(a, k);
    RoundTurns(EncRound(a, k), k);
  }

  lemma WithByteTurns(a: Block, i: nat, v: Byte)
    requires 4 <= i < 16
    ensures Turn(WithByte(a, i, v)) == WithByte(Turn(a), i - 4, v)
  {
    hide WithRow;
  }

  lemma MixByteInjective(a: Byte, b: Byte, c: Byte, d: Byte, d': Byte)
    requires MixByte(a, b, c, d) == MixByte(a, b, c, d')
    ensures d == d'
  {
    hide Mul;
  }

  lemma AddInjective(a: Byte, b: Byte, k: Byte)
    requires Add(a, k) == Add(b, k)
    ensures a == b
  {
  }

  /** Row r + 1 of a mixed column takes row r with coefficient one, and SubBytes keeps it apart. */
  lemma MixedRowTells(c: Column, k: Column, r: nat, v: Byte, w: Byte)
    requires r < 4
    requires var x := SubColumn(MixColumn(AddColumn(WithRow(c, r, v), k)));
             var y := SubColumn(MixColumn(AddColumn(WithRow(c, r, w), k)));
             && (r == 0 ==> x.b1 == y.b1) && (r == 1 ==> x.b2 == y.b2)
             && (r == 2 ==> x.b3 == y.b3) && (r == 3 ==> x.b0 == y.b0)
    ensures v == w
  {
    hide SubByte, InvSubByte, MixByte, Add;
    var x, y := AddColumn(WithRow(c, r, v), k), AddColumn(WithRow(c, r, w), k);
    var mx, my := MixColumn(x), MixColumn(y);
    if r == 0 {
      SubByteRoundTrip(mx.b1);
      SubByteRoundTrip(my.b1);
      MixByteInjective(x.b1, x.b2, x.b3, x.b0, y.b0);
      AddInjective(v, w, k.b0);
    } else if r == 1 {
      SubByteRoundTrip(mx.b2);
      SubByteRoundTrip(my.b2);
      MixByteInjective(x.b2, x.b3, x.b0, x.b1, y.b1);
      AddInjective(v, w, k.b1);
    } else if r == 2 {
      SubByteRoundTrip(mx.b3);
      SubByteRoundTrip(my.b3);
      MixByteInjective(x.b3, x.b0, x.b1, x.b2, y.b2);
      AddInjective(v, w, k.b2);
    } else {
      SubByteRoundTrip(mx.b0);
      SubByteRoundTrip(my.b0);
      MixByteInjective(x.b0, x.b1, x.b2, x.b3, y.b3);
      AddInjective(v, w, k.b3);
    }
  }

  /** The column of AESENC's result that takes row r + 1 of the input's first column does not see row r of it. */
  lemma FirstColumnTells(a: Block, k: Block, r: nat, v: Byte, w: Byte)
    requires r < 4 && Recovered(WithByte(a, r, v), k) && Recovered(WithByte(a, r, w), k)
    ensures v == w
  {
    hide Recovered, AddColumn, MixColumn, SubByte;
    var x, y := WithByte(a, r, v), WithByte(a, r, w);
    RecoveredExactly(x, k);
    RecoveredExactly(y, k);
    var mx, my := Xor(MixAll(SubBytes(ShiftRows(x))), k), Xor(MixAll(SubBytes(ShiftRows(y))), k);
    if r == 0 {
      assert mx.c3 == my.c3;
    } else if r == 1 {
      assert mx.c2 == my.c2;
    } else if r == 2 {
      assert mx.c1 == my.c1;
    } else {
      assert mx.c0 == my.c0;
    }
    MixedRowTells(a.c0, k.c0, r, v, w);
  }

  /** Of the 256 blocks that differ in byte i alone, AESDEC recovers at most one, whatever the key. */
  lemma {:induction false} RecoveredAtMostOnce(a: Block, k: Block, i: nat, v: Byte, w: Byte)
    requires i < 16 && Recovered(WithByte(a, i, v), k) && Recovered(WithByte(a, i, w), k)
    ensures v == w
    decreases i
  {
    hide Recovered, WithByte, Turn;
    if i < 4 {
      FirstColumnTells(a, k, i, v, w);
    } else {
      RecoveredTurns(WithByte(a, i, v), k);
      RecoveredTurns(WithByte(a, i, w), k);
      WithByteTurns(a, i, v);
      WithByteTurns(a, i, w);
      RecoveredAtMostOnce(Turn(a), Turn(k), i - 4, v, w);
    }
  }

  /** For no key does AESDEC undo AESENC. */
  lemma NoKeyUndoes(k: Block)
    ensures exists a :: !Recovered(a, k)
  {
    hide Recovered;
    var zero := Repeated(0);
    if Recovered(WithByte(zero, 0, 0), k) && Recovered(WithByte(zero, 0, 1), k) {
      RecoveredAtMostOnce(zero, k, 0, 0, 1);
    }
  }

  // Blocks and keys of one repeated byte

  lemma MixByteOfOne(b: Byte)
    ensures MixByte(b, b, b, b) == b
  {
    hide XTime, Mul;
    Times2(b);
    Times3(b);
  }

  lemma MixRepeated(b: Byte)
    ensures MixAll(Repeated(b)) == Repeated(b) && InvMixAll(Repeated(b)) == Repeated(b)
  {
    hide MixByte, InvMixColumn;
    MixByteOfOne(b);
    MixRoundTrip(Column(b, b, b, b));
  }

  /** On repeated bytes the rounds are the S-box and its inverse, followed by the key. */
  lemma RoundsOnRepeated(b: Byte, k: Byte)
    ensures EncRound(Repeated(b), Repeated(k)) == Repeated(Add(SubByte(b), k))
    ensures DecRound(Repeated(b), Repeated(k)) == Repeated(Add(InvSubByte(b), k))
  {
    hide SubByte, InvSubByte, MixAll, InvMixAll, Add;
    MixRepeated(SubByte(b));
    MixRepeated(InvSubByte(b));
  }

  /** So they are recovered just when the key passes through the S-box, and all of them are under the zero key. */
  lemma RecoveredRepeated(b: Byte, k: Byte)
    ensures Recovered(Repeated(b), Repeated(k)) <==> Add(SubByte(b), k) == SubByte(Add(b, k))
    ensures Recovered(Repeated(b), Repeated(0))
  {
    hide EncRound, DecRound, SubByte, InvSubByte, Add;
    RepeatedBack(b, k);
    RepeatedBack(b, 0);
    AddLaws(SubByte(b), 0, 0);
    AddLaws(b, 0, 0);
  }

  lemma RepeatedBack(b: Byte, k: Byte)
    ensures Recovered(Repeated(b), Repeated(k)) <==> Add(SubByte(b), k) == SubByte(Add(b, k))
  {
    hide EncRound, DecRound, SubByte, InvSubByte, Add;
    var y := Add(SubByte(b), k);
    RoundsOnRepeated(b, k);
    RoundsOnRepeated(y, k);
    assert Recovered(Repeated(b), Repeated(k)) <==> Add(InvSubByte(y), k) == b by {
      assert Repeated(b).c0.b0 == b && Repeated(Add(InvSubByte(y), k)).c0.b0 == Add(InvSubByte(y), k);
    }
    AddMoves(InvSubByte(y), b, k);
    SubByteRoundTrip(y);
    SubByteRoundTrip(Add(b, k));
  }

  lemma AddMoves(a: Byte, b: Byte, k: Byte)
    ensures Add(a, k) == b <==> a == Add(b, k)
  {
    hide Add;
    AddLaws(a, k, k);
    AddLaws(b, k, k);
    AddLaws(k, k, k);
    AddLaws(a, 0, 0);
    AddLaws(b, 0, 0);
  }

  /** With every key byte {53}, the zero block is not recovered. */
  lemma DecRoundDoesNotUndoEncRound()
    ensures !Recovered(Repeated(0), Repeated(0x53))
  {
    hide Recovered, SubByte;
    SubByteExamples();
    RecoveredRepeated(0, 0x53);
    assert Add(0x63, 0x53) != 0xed;
  }

  // The ciphers

  /** aes_dec_128 after aes_enc_128, with one key for one round, recovers at most one of 256 such blocks. */
  lemma CipherRecoveredAtMostOnce(p: Params<Block>, q: Params<Block>, a: Block, k: Block, i: nat, v: Byte, w: Byte)
    requires HasAesRounds(p) && HasAesRounds(q) && p.enc && !q.enc && p.roundsPerKey == q.roundsPerKey == 1
    requires i < 16
    requires var x := WithByte(a, i, v); Cipher(q, Cipher(p, x, [k]), [k]) == x
    requires var y := WithByte(a, i, w); Cipher(q, Cipher(p, y, [k]), [k]) == y
    ensures v == w
  {
    hide EncRound, DecRound, WithByte;
    OneKey(p, WithByte(a, i, v), k);
    OneKey(p, WithByte(a, i, w), k);
    OneKey(q, EncRound(WithByte(a, i, v), k), k);
    OneKey(q, EncRound(WithByte(a, i, w), k), k);
    RecoveredAtMostOnce(a, k, i, v, w);
  }

  lemma OneKey(p: Params<Block>, a: Block, k: Block)
    requires p.roundsPerKey == 1
    ensures Cipher(p, a, [k]) == Round(p, a, k)
  {
    hide Round;
    assert [k][..0] == [];
    assert Rounds(p, a, k, 1) == Round(p, Rounds(p, a, k, 0), k);
  }

  /** Each further key is one more round. */
  lemma OneMoreKey(p: Params<Block>, a: Block, keys: seq<Block>, k: Block)
    requires p.roundsPerKey == 1
    ensures Cipher(p, a, keys + [k]) == Round(p, Cipher(p, a, keys), k)
  {
    hide Round;
    assert (keys + [k])[..|keys|] == keys;
    var b := Cipher(p, a, keys);
    assert Rounds(p, b, k, 1) == Round(p, Rounds(p, b, k, 0), k);
  }

  lemma ThreeKeys(p: Params<Block>, a: Block, k: Block)
    requires p.roundsPerKey == 1
    ensures Cipher(p, a, [k, k, k]) == Round(p, Round(p, Round(p, a, k), k), k)
  {
    hide Round, Cipher;
    OneKey(p, a, k);
    OneMoreKey(p, a, [k], k);
    OneMoreKey(p, a, [k, k], k);
    assert [k] + [k] == [k, k] && [k, k] + [k] == [k, k, k];
  }

  lemma InvSubByteExamples()
    ensures InvSubByte(0x00) == 0x52 && InvSubByte(0x31) == 0x2e && InvSubByte(0x4d) == 0x65
  {
  }

  /** With the default three keys of one round each there are keys and a block that decryption does not recover. */
  lemma DefaultCipherNotUndone(p: Params<Block>, q: Params<Block>)
    requires HasAesRounds(p) && HasAesRounds(q) && p.enc && !q.enc && p.roundsPerKey == q.roundsPerKey == 1
    ensures var k := Repeated(0x63);
            Cipher(q, Cipher(p, Repeated(0), [k, k, k]), [k, k, k]) == Repeated(0x06)
  {
    hide EncRound, DecRound, SubByte, InvSubByte, Repeated, Cipher;
    var k, zero := Repeated(0x63), Repeated(0);
    ThreeKeys(p, zero, k);
    ThreeKeys(q, zero, k);
    SubByteExamples();
    InvSubByteExamples();
    RoundsOnRepeated(0, 0x63);
    RoundsOnRepeated(0x31, 0x63);
    RoundsOnRepeated(0x4d, 0x63);
    assert Add(0x63, 0x63) == 0 && Add(0x52, 0x63) == 0x31 && Add(0x2e, 0x63) == 0x4d && Add(0x65, 0x63) == 0x06;
  }
}
