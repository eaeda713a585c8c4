/**
 The AESENC and AESDEC rounds against FIPS 197, byte by byte in memory order.

 Section 3.4 of FIPS 197 puts byte r + 4c of a block at row r and column c of the state.
 */
module AesReference {
  import opened Bytes
  import opened GaloisField
  import opened MixColumns
  import opened Aes
  import opened Aes128

  /** The byte of the state at row r and column c, as the block lies in memory. */
  function State(a: Block, r: nat, c: nat): Byte
    requires r < 4 && c < 4
  {
    ToBytes(a)[4 * c + r]
  }

  function Row(c: Column, r: nat): Byte
    requires r < 4
  {
    if r == 0 then c.b0 else if r == 1 then c.b1 else if r == 2 then c.b2 else c.b3
  }

  function Col(a: Block, c: nat): Column
    requires c < 4
  {
    if c == 0 then a.c0 else if c == 1 then a.c1 else if c == 2 then a.c2 else a.c3
  }

  /** The columns lie in memory one after another. */
  lemma ColumnsInMemory(a: Block)
    ensures ToBytes(a)[..4] == ColumnBytes(a.c0) && ToBytes(a)[4..8] == ColumnBytes(a.c1)
    ensures ToBytes(a)[8..12] == ColumnBytes(a.c2) && ToBytes(a)[12..] == ColumnBytes(a.c3)
  {
    hide ColumnBytes;
    var lo, hi := LoBytes(a), HiBytes(a);
    assert ToBytes(a)[..4] == lo[..4] && ToBytes(a)[4..8] == lo[4..];
    assert ToBytes(a)[8..12] == hi[..4] && ToBytes(a)[12..] == hi[4..];
  }

  lemma RowOfBytes(c: Column, r: nat)
    requires r < 4
    ensures ColumnBytes(c)[r] == Row(c, r)
  {
  }

  lemma StateIs(a: Block, r: nat, c: nat)
    requires r < 4 && c < 4
    ensures State(a, r, c) == Row(Col(a, c), r)
  {
    hide ToBytes, ColumnBytes, Row;
    ColumnsInMemory(a);
    RowOfBytes(Col(a, c), r);
    var s := ToBytes(a);
    if c == 0 {
      assert s[..4][r] == s[r];
    } else if c == 1 {
      assert s[4..8][r] == s[4 + r];
    } else if c == 2 {
      assert s[8..12][r] == s[8 + r];
    } else {
      assert s[12..][r] == s[12 + r];
    }
  }

  // Section 5.1.1

  /** Bit i of a byte. */
  function Bit(b: Byte, i: nat): Byte
    requires i < 8
  {
    (b >> i) & 1
  }

  /** Equation 5.1: bit i of the S-box's affine map. */
  lemma AffineBits(b: Byte, i: nat)
    requires i < 8
    ensures Bit(Affine(b), i) == Bit(b, i) ^ Bit(b, (i + 4) % 8) ^ Bit(b, (i + 5) % 8) ^ Bit(b, (i + 6) % 8)
                                 ^ Bit(b, (i + 7) % 8) ^ Bit(0x63, i)
  {
    if i < 4 {
      LowAffineBits(b, i);
    } else {
      HighAffineBits(b, i);
    }
  }

  lemma LowAffineBits(b: Byte, i: nat)
    requires i < 4
    ensures Bit(Affine(b), i) == Bit(b, i) ^ Bit(b, i + 4) ^ Bit(b, (i + 5) % 8) ^ Bit(b, (i + 6) % 8)
                                 ^ Bit(b, (i + 7) % 8) ^ Bit(0x63, i)
  {
    assert i == 0 || i == 1 || i == 2 || i == 3;
  }

  lemma HighAffineBits(b: Byte, i: nat)
    requires 4 <= i < 8
    ensures Bit(Affine(b), i) == Bit(b, i) ^ Bit(b, i - 4) ^ Bit(b, i - 3) ^ Bit(b, i - 2) ^ Bit(b, i - 1)
                                 ^ Bit(0x63, i)
  {
    assert i == 4 || i == 5 || i == 6 || i == 7;
  }

  // Sections 5.1.2 and 5.3.1

  lemma RowsShifted(a: Block, r: nat, c: nat)
    requires r < 4 && c < 4
    ensures Row(Col(ShiftRows(a), c), r) == Row(Col(a, (c + r) % 4), r)
    ensures Row(Col(InvShiftRows(a), (c + r) % 4), r) == Row(Col(a, c), r)
  {
    if r == 0 {
    } else if r == 1 {
    } else if r == 2 {
    } else {
      assert r == 3;
    }
  }

  /** ShiftRows rotates row r to the left by r columns. */
  lemma ShiftRowsMoves(a: Block, r: nat, c: nat)
    requires r < 4 && c < 4
    ensures State(ShiftRows(a), r, c) == State(a, r, (c + r) % 4)
    ensures State(InvShiftRows(a), r, (c + r) % 4) == State(a, r, c)
  {
    hide *;
    RowsShifted(a, r, c);
    StateIs(ShiftRows(a), r, c);
    StateIs(a, r, (c + r) % 4);
    StateIs(InvShiftRows(a), r, (c + r) % 4);
    StateIs(a, r, c);
  }

  // Whole rounds

  /** The byte that ShiftRows and SubBytes bring to row r and column c. */
  function Moved(a: Block, r: nat, c: nat): Byte
    requires r < 4 && c < 4
  {
    SubByte(State(a, r, (c + r) % 4))
  }

  lemma MovedIs(a: Block, r: nat, c: nat)
    requires r < 4 && c < 4
    ensures Moved(a, r, c) == Row(Col(SubBytes(ShiftRows(a)), c), r)
  {
    hide State, SubByte, ShiftRows;
    ShiftRowsMoves(a, r, c);
    StateIs(ShiftRows(a), r, c);
  }

  /** Section 5.1: each byte of AESENC's result, from four bytes of the block and one of the key. */
  lemma EncRoundBytes(a: Block, k: Block, r: nat, c: nat)
    requires r < 4 && c < 4
    ensures State(EncRound(a, k), r, c) ==
            Add(Sum4(Mul(Moved(a, r, c), 0x02), Mul(Moved(a, (r + 1) % 4, c), 0x03),
                     Moved(a, (r + 2) % 4, c), Moved(a, (r + 3) % 4, c)),
                State(k, r, c))
  {
    hide State, Moved, Mul, Sum4, Add, SubBytes, ShiftRows;
    var s := SubBytes(ShiftRows(a));
    StateIs(EncRound(a, k), r, c);
    StateIs(k, r, c);
    MovedIs(a, r, c);
    MovedIs(a, (r + 1) % 4, c);
    MovedIs(a, (r + 2) % 4, c);
    MovedIs(a, (r + 3) % 4, c);
    MixedByte(s, r, c);
  }

  lemma MixedRow(c: Column, r: nat)
    requires r < 4
    ensures Row(MixColumn(c), r) == MixByte(Row(c, r), Row(c, (r + 1) % 4), Row(c, (r + 2) % 4), Row(c, (r + 3) % 4))
    ensures Row(InvMixColumn(c), r) ==
            InvMixByte(Row(c, r), Row(c, (r + 1) % 4), Row(c, (r + 2) % 4), Row(c, (r + 3) % 4))
  {
    hide MixByte, InvMixByte;
    if r == 0 {
    } else if r == 1 {
    } else if r == 2 {
    } else {
      assert r == 3;
    }
  }

  lemma MixedByte(s: Block, r: nat, c: nat)
    requires r < 4 && c < 4
    ensures Row(Col(MixAll(s), c), r) ==
            Sum4(Mul(Row(Col(s, c), r), 0x02), Mul(Row(Col(s, c), (r + 1) % 4), 0x03),
                 Row(Col(s, c), (r + 2) % 4), Row(Col(s, c), (r + 3) % 4))
    ensures Row(Col(InvMixAll(s), c), r) ==
            Sum4(Mul(Row(Col(s, c), r), 0x0e), Mul(Row(Col(s, c), (r + 1) % 4), 0x0b),
                 Mul(Row(Col(s, c), (r + 2) % 4), 0x0d), Mul(Row(Col(s, c), (r + 3) % 4), 0x09))
  {
    hide Mul, Sum4, MixColumn, InvMixColumn, Row;
    MixedRow(Col(s, c), r);
  }

  /** The byte that InvShiftRows and InvSubBytes bring to row r and column c. */
  function MovedBack(a: Block, r: nat, c: nat): Byte
    requires r < 4 && c < 4
  {
    InvSubByte(State(a, r, (c + 4 - r) % 4))
  }

  lemma MovedBackIs(a: Block, r: nat, c: nat)
    requires r < 4 && c < 4
    ensures MovedBack(a, r, c) == Row(Col(InvSubBytes(InvShiftRows(a)), c), r)
  {
    hide State, InvSubByte, InvShiftRows;
    var d := (c + 4 - r) % 4;
    assert (d + r) % 4 == c;
    ShiftRowsMoves(a, r, d);
    StateIs(InvShiftRows(a), r, c);
  }

  /** Section 5.3, with the round key added last as AESDEC does. */
  lemma DecRoundBytes(a: Block, k: Block, r: nat, c: nat)
    requires r < 4 && c < 4
    ensures State(DecRound(a, k), r, c) ==
            Add(Sum4(Mul(MovedBack(a, r, c), 0x0e), Mul(MovedBack(a, (r + 1) % 4, c), 0x0b),
                     Mul(MovedBack(a, (r + 2) % 4, c), 0x0d), Mul(MovedBack(a, (r + 3) % 4, c), 0x09)),
                State(k, r, c))
  {
    hide State, MovedBack, Mul, Sum4, Add, InvSubBytes, InvShiftRows;
    var s := InvSubBytes(InvShiftRows(a));
    StateIs(DecRound(a, k), r, c);
    StateIs(k, r, c);
    MovedBackIs(a, r, c);
    MovedBackIs(a, (r + 1) % 4, c);
    MovedBackIs(a, (r + 2) % 4, c);
    MovedBackIs(a, (r + 3) % 4, c);
    MixedByte(s, r, c);
  }

  /** The products that section 4.2 of FIPS 197 works out. */
  lemma MulExamples()
    ensures Mul(0x57, 0x83) == 0xc1 && Mul(0x57, 0x13) == 0xfe
  {
  }

  // The first rounds of the examples of appendix C.1

  lemma EncSubExamples()
    ensures SubByte(0x00) == 0x63 && SubByte(0x10) == 0xca && SubByte(0x20) == 0xb7 && SubByte(0x30) == 0x04
    ensures SubByte(0x40) == 0x09 && SubByte(0x50) == 0x53 && SubByte(0x60) == 0xd0 && SubByte(0x70) == 0x51
  {
  }

  lemma MoreEncSubExamples()
    ensures SubByte(0x80) == 0xcd && SubByte(0x90) == 0x60 && SubByte(0xa0) == 0xe0 && SubByte(0xb0) == 0xe7
    ensures SubByte(0xc0) == 0xba && SubByte(0xd0) == 0x70 && SubByte(0xe0) == 0xe1 && SubByte(0xf0) == 0x8c
  {
  }

  /** AESENC. */
  lemma EncExample()
    ensures EncRound(Block(Column(0x00, 0x10, 0x20, 0x30), Column(0x40, 0x50, 0x60, 0x70),
                           Column(0x80, 0x90, 0xa0, 0xb0), Column(0xc0, 0xd0, 0xe0, 0xf0)),
                     Block(Column(0xd6, 0xaa, 0x74, 0xfd), Column(0xd2, 0xaf, 0x72, 0xfa),
                           Column(0xda, 0xa6, 0x78, 0xf1), Column(0xd6, 0xab, 0x76, 0xfe)))
            == Block(Column(0x89, 0xd8, 0x10, 0xe8), Column(0x85, 0x5a, 0xce, 0x68),
                     Column(0x2d, 0x18, 0x43, 0xd8), Column(0xcb, 0x12, 0x8f, 0xe4))
  {
    hide SubByte;
    EncSubExamples();
    MoreEncSubExamples();
  }

  lemma DecSubExamples()
    ensures InvSubByte(0x7a) == 0xbd && InvSubByte(0xd5) == 0xb5 && InvSubByte(0xfd) == 0x21 && InvSubByte(0xa7) == 0x89
    ensures InvSubByte(0x89) == 0xf2 && InvSubByte(0xef) == 0x61 && InvSubByte(0x4e) == 0xb6 && InvSubByte(0x27) == 0x3d
  {
  }

  lemma MoreDecSubExamples()
    ensures InvSubByte(0x2b) == 0x0b && InvSubByte(0xca) == 0x10 && InvSubByte(0x10) == 0x7c && InvSubByte(0x0b) == 0x9e
    ensures InvSubByte(0x3d) == 0x8b && InvSubByte(0x9f) == 0x6e && InvSubByte(0xf5) == 0x77
  {
  }

  /** The equivalent inverse cipher's first round, whose key has been through InvMixColumns. */
  lemma DecExample()
    ensures DecRound(Block(Column(0x7a, 0xd5, 0xfd, 0xa7), Column(0x89, 0xef, 0x4e, 0x27),
                           Column(0x2b, 0xca, 0x10, 0x0b), Column(0x3d, 0x9f, 0xf5, 0x9f)),
                     Block(Column(0x13, 0xaa, 0x29, 0xbe), Column(0x9c, 0x8f, 0xaf, 0xf6),
                           Column(0xf7, 0x70, 0xf5, 0x80), Column(0x00, 0xf7, 0xbf, 0x03)))
            == Block(Column(0x54, 0xd9, 0x90, 0xa1), Column(0x6b, 0xa0, 0x9a, 0xb5),
                     Column(0x96, 0xbb, 0xf4, 0x0e), Column(0xa1, 0x11, 0x70, 0x2f))
  {
    hide InvSubByte;
    DecSubExamples();
    MoreDecSubExamples();
  }
}
