/** One AES round on a 128-bit block, as the AESENC and AESDEC instructions compute it from FIPS 197. */
module Aes {
  import opened Bytes
  import opened GaloisField
  import opened MixColumns

  /** A block is the state array of section 3.4 of FIPS 197; column 0 holds the bytes at the lowest addresses. */
  datatype Block = Block(c0: Column, c1: Column, c2: Column, c3: Column)

  // Section 5.1.1 and 5.3.2: SubBytes

  /** The affine map of the S-box: bit i becomes the sum of bits i, i+4, i+5, i+6 and i+7, and of bit i of {63}. */
  function Affine(b: Byte): Byte {
    b ^ b.RotateRight(4) ^ b.RotateRight(5) ^ b.RotateRight(6) ^ b.RotateRight(7) ^ 0x63
  }

  function InvAffine(b: Byte): Byte {
    b.RotateRight(2) ^ b.RotateRight(5) ^ b.RotateRight(7) ^ 0x05
  }

  function SubByte(b: Byte): Byte { Affine(Inverse(b)) }

  function InvSubByte(b: Byte): Byte { Inverse(InvAffine(b)) }

  function SubColumn(c: Column): Column {
    Column(SubByte(c.b0), SubByte(c.b1), SubByte(c.b2), SubByte(c.b3))
  }

  function InvSubColumn(c: Column): Column {
    Column(InvSubByte(c.b0), InvSubByte(c.b1), InvSubByte(c.b2), InvSubByte(c.b3))
  }

  function SubBytes(s: Block): Block {
    Block(SubColumn(s.c0), SubColumn(s.c1), SubColumn(s.c2), SubColumn(s.c3))
  }

  function InvSubBytes(s: Block): Block {
    Block(InvSubColumn(s.c0), InvSubColumn(s.c1), InvSubColumn(s.c2), InvSubColumn(s.c3))
  }

  // Section 5.1.2 and 5.3.1: row r is rotated by r columns

  function ShiftRows(s: Block): Block {
    Block(Column(s.c0.b0, s.c1.b1, s.c2.b2, s.c3.b3),
          Column(s.c1.b0, s.c2.b1, s.c3.b2, s.c0.b3),
          Column(s.c2.b0, s.c3.b1, s.c0.b2, s.c1.b3),
          Column(s.c3.b0, s.c0.b1, s.c1.b2, s.c2.b3))
  }

  function InvShiftRows(s: Block): Block {
    Block(Column(s.c0.b0, s.c3.b1, s.c2.b2, s.c1.b3),
          Column(s.c1.b0, s.c0.b1, s.c3.b2, s.c2.b3),
          Column(s.c2.b0, s.c1.b1, s.c0.b2, s.c3.b3),
          Column(s.c3.b0, s.c2.b1, s.c1.b2, s.c0.b3))
  }

  // Section 5.1.3 and 5.3.3

  function MixAll(s: Block): Block {
    Block(MixColumn(s.c0), MixColumn(s.c1), MixColumn(s.c2), MixColumn(s.c3))
  }

  function InvMixAll(s: Block): Block {
    Block(InvMixColumn(s.c0), InvMixColumn(s.c1), InvMixColumn(s.c2), InvMixColumn(s.c3))
  }

  /** The bitwise exclusive or of two blocks; with a round key it is AddRoundKey of section 5.1.4. */
  function Xor(a: Block, b: Block): Block {
    Block(AddColumn(a.c0, b.c0), AddColumn(a.c1, b.c1), AddColumn(a.c2, b.c2), AddColumn(a.c3, b.c3))
  }

  /** The block with the same byte sixteen times. */
  function Repeated(b: Byte): Block {
    var c := Column(b, b, b, b);
    Block(c, c, c, c)
  }

  /** AESENC. */
  function EncRound(a: Block, k: Block): Block {
    Xor(MixAll(SubBytes(ShiftRows(a))), k)
  }

  /** AESDEC, which adds its key after InvMixColumns and so does not undo AESENC under the same key. */
  function DecRound(a: Block, k: Block): Block {
    Xor(InvMixAll(InvSubBytes(InvShiftRows(a))), k)
  }

  lemma AffineRoundTrip(b: Byte)
    ensures InvAffine(Affine(b)) == b && Affine(InvAffine(b)) == b
  {
  }

  lemma SubByteRoundTrip(b: Byte)
    ensures InvSubByte(SubByte(b)) == b
    ensures SubByte(InvSubByte(b)) == b
  {
    hide Affine, InvAffine, Inverse;
    AffineRoundTrip(Inverse(b));
    InverseInvolution(b);
    InverseInvolution(InvAffine(b));
    AffineRoundTrip(b);
  }

  /** The S-box entries that section 5.1.1 of FIPS 197 and its figure 7 print out. */
  lemma SubByteExamples()
    ensures SubByte(0x00) == 0x63
    ensures SubByte(0x53) == 0xed
  {
  }

  lemma SubColumnRoundTrip(c: Column)
    ensures InvSubColumn(SubColumn(c)) == c
    ensures SubColumn(InvSubColumn(c)) == c
  {
    hide SubByte, InvSubByte;
    SubByteRoundTrip(c.b0);
    SubByteRoundTrip(c.b1);
    SubByteRoundTrip(c.b2);
    SubByteRoundTrip(c.b3);
  }

  lemma SubBytesRoundTrip(s: Block)
    ensures InvSubBytes(SubBytes(s)) == s
    ensures SubBytes(InvSubBytes(s)) == s
  {
    hide SubColumn, InvSubColumn;
    SubColumnRoundTrip(s.c0);
    SubColumnRoundTrip(s.c1);
    SubColumnRoundTrip(s.c2);
    SubColumnRoundTrip(s.c3);
  }

  lemma ShiftRowsRoundTrip(s: Block)
    ensures InvShiftRows(ShiftRows(s)) == s
    ensures ShiftRows(InvShiftRows(s)) == s
  {
  }

  lemma MixAllRoundTrip(s: Block)
    ensures InvMixAll(MixAll(s)) == s
    ensures MixAll(InvMixAll(s)) == s
  {
    hide MixColumn, InvMixColumn;
    MixRoundTrip(s.c0);
    MixRoundTrip(s.c1);
    MixRoundTrip(s.c2);
    MixRoundTrip(s.c3);
  }

  lemma XorColumn(c: Column, d: Column)
    ensures AddColumn(AddColumn(c, d), d) == c
    ensures AddColumn(c, d) == AddColumn(d, c)
  {
    hide *;
    ColumnLaws(c, d, d);
    ColumnLaws(d, d, d);
  }

  lemma XorLaws(a: Block, b: Block)
    ensures Xor(Xor(a, b), b) == a
    ensures Xor(a, b) == Xor(b, a)
  {
    hide AddColumn;
    XorColumn(a.c0, b.c0);
    XorColumn(a.c1, b.c1);
    XorColumn(a.c2, b.c2);
    XorColumn(a.c3, b.c3);
  }

  /** The input of the encryption round that gave y. */
  function UndoEncRound(y: Block, k: Block): Block {
    InvShiftRows(InvSubBytes(InvMixAll(Xor(y, k))))
  }

  function UndoDecRound(y: Block, k: Block): Block {
    ShiftRows(SubBytes(MixAll(Xor(y, k))))
  }

  /** Under every key, the encryption round is a permutation of the blocks. */
  lemma EncRoundPermutes(a: Block, k: Block)
    ensures UndoEncRound(EncRound(a, k), k) == a
    ensures EncRound(UndoEncRound(a, k), k) == a
  {
    hide Xor, ShiftRows, InvShiftRows, SubBytes, InvSubBytes, MixAll, InvMixAll;
    var s := SubBytes(ShiftRows(a));
    XorLaws(MixAll(s), k);
    MixAllRoundTrip(s);
    SubBytesRoundTrip(ShiftRows(a));
    ShiftRowsRoundTrip(a);
    var t := InvMixAll(Xor(a, k));
    ShiftRowsRoundTrip(InvSubBytes(t));
    SubBytesRoundTrip(t);
    MixAllRoundTrip(Xor(a, k));
    XorLaws(a, k);
  }

  /** Under every key, the decryption round is a permutation of the blocks. */
  lemma DecRoundPermutes(a: Block, k: Block)
    ensures UndoDecRound(DecRound(a, k), k) == a
    ensures DecRound(UndoDecRound(a, k), k) == a
  {
    hide Xor, ShiftRows, InvShiftRows, SubBytes, InvSubBytes, MixAll, InvMixAll;
    var s := InvSubBytes(InvShiftRows(a));
    XorLaws(InvMixAll(s), k);
    MixAllRoundTrip(s);
    SubBytesRoundTrip(InvShiftRows(a));
    ShiftRowsRoundTrip(a);
    var t := MixAll(Xor(a, k));
    ShiftRowsRoundTrip(SubBytes(t));
    SubBytesRoundTrip(t);
    MixAllRoundTrip(Xor(a, k));
    XorLaws(a, k);
  }

  lemma SubBytesShiftRowsCommute(s: Block)
    ensures InvSubBytes(InvShiftRows(s)) == InvShiftRows(InvSubBytes(s))
  {
    hide SubByte, InvSubByte;
  }

  lemma XorZero(a: Block)
    ensures Xor(a, Repeated(0)) == a
  {
    hide AddColumn;
    var zero := Repeated(0);
    ColumnLaws(a.c0, zero.c0, zero.c0);
    ColumnLaws(a.c1, zero.c1, zero.c1);
    ColumnLaws(a.c2, zero.c2, zero.c2);
    ColumnLaws(a.c3, zero.c3, zero.c3);
  }

  /** AESDEC under the zero key, after InvMixColumns and before MixColumns, is what undoes AESENC. */
  lemma DecRoundInsideMixUndoesEncRound(y: Block, k: Block)
    ensures MixAll(DecRound(InvMixAll(Xor(y, k)), Repeated(0))) == UndoEncRound(y, k)
  {
    hide Xor, ShiftRows, InvShiftRows, SubBytes, InvSubBytes, MixAll, InvMixAll, Repeated;
    var z := InvMixAll(Xor(y, k));
    XorZero(InvMixAll(InvSubBytes(InvShiftRows(z))));
    MixAllRoundTrip(InvSubBytes(InvShiftRows(z)));
    SubBytesShiftRowsCommute(z);
  }

  // The 64-bit lanes of a block are its two pairs of columns

  function SwapLanes(a: Block): Block {
    Block(a.c2, a.c3, a.c0, a.c1)
  }

  predicate LanesEqual(a: Block) {
    a.c0 == a.c2 && a.c1 == a.c3
  }

  lemma SwapLanesLaws(a: Block, b: Block)
    ensures SwapLanes(SwapLanes(a)) == a
    ensures SwapLanes(Xor(a, b)) == Xor(SwapLanes(a), SwapLanes(b))
    ensures SwapLanes(a) == a <==> LanesEqual(a)
  {
    hide AddColumn;
  }

  /** Swapping the lanes of both the block and the round key swaps the lanes of the round's result. */
  lemma RoundSwaps(a: Block, k: Block)
    ensures EncRound(SwapLanes(a), SwapLanes(k)) == SwapLanes(EncRound(a, k))
    ensures DecRound(SwapLanes(a), SwapLanes(k)) == SwapLanes(DecRound(a, k))
  {
    hide SubColumn, InvSubColumn, MixColumn, InvMixColumn, AddColumn;
  }

  /** If a round commutes with the lane swap at even one block, the lanes of its key are equal; then it always does. */
  lemma RoundCommutesWithSwap(a: Block, k: Block)
    ensures EncRound(SwapLanes(a), k) == SwapLanes(EncRound(a, k)) <==> LanesEqual(k)
    ensures DecRound(SwapLanes(a), k) == SwapLanes(DecRound(a, k)) <==> LanesEqual(k)
  {
    RoundSwaps(a, k);
    SwapLanesLaws(k, k);
    hide Xor, SwapLanes, LanesEqual, ShiftRows, InvShiftRows, SubBytes, InvSubBytes, MixAll, InvMixAll;
    XorCancels(MixAll(SubBytes(ShiftRows(SwapLanes(a)))), k, SwapLanes(k));
    XorCancels(InvMixAll(InvSubBytes(InvShiftRows(SwapLanes(a)))), k, SwapLanes(k));
  }

  lemma XorCancels(a: Block, k: Block, l: Block)
    ensures Xor(a, k) == Xor(a, l) <==> k == l
  {
    hide Xor;
    XorLaws(k, a);
    XorLaws(l, a);
    XorLaws(a, k);
    XorLaws(a, l);
  }
}
