/**
 MixColumns and its inverse (sections 5.1.3 and 5.3.3 of FIPS 197) on one column of the state.

 The proof that they undo each other treats the rotation of a column and the doubling of its bytes as
 commuting additive operators.  With Spread(c) = c + Rotate(c), four spreadings cancel, MixColumn is
 Spread^3 + 1 + Double.Spread, its square is 1 + Double^2.Spread^2 and its fourth power is the identity,
 while the inverse matrix of the standard is its third power.
 */
module MixColumns {
  import opened Bytes
  import opened GaloisField

  datatype Column = Column(b0: Byte, b1: Byte, b2: Byte, b3: Byte)

  const ZERO := Column(0, 0, 0, 0)

  function Sum4(a: Byte, b: Byte, c: Byte, d: Byte): Byte {
    a ^ b ^ c ^ d
  }

  /** One row of the MixColumns matrix. */
  function MixByte(a: Byte, b: Byte, c: Byte, d: Byte): Byte {
    Sum4(Mul(a, 0x02), Mul(b, 0x03), c, d)
  }

  /** One row of the InvMixColumns matrix. */
  function InvMixByte(a: Byte, b: Byte, c: Byte, d: Byte): Byte {
    Sum4(Mul(a, 0x0e), Mul(b, 0x0b), Mul(c, 0x0d), Mul(d, 0x09))
  }

  function MixColumn(c: Column): Column {
    Column(MixByte(c.b0, c.b1, c.b2, c.b3), MixByte(c.b1, c.b2, c.b3, c.b0),
           MixByte(c.b2, c.b3, c.b0, c.b1), MixByte(c.b3, c.b0, c.b1, c.b2))
  }

  function InvMixColumn(c: Column): Column {
    Column(InvMixByte(c.b0, c.b1, c.b2, c.b3), InvMixByte(c.b1, c.b2, c.b3, c.b0),
           InvMixByte(c.b2, c.b3, c.b0, c.b1), InvMixByte(c.b3, c.b0, c.b1, c.b2))
  }

  function AddColumn(c: Column, d: Column): Column {
    Column(Add(c.b0, d.b0), Add(c.b1, d.b1), Add(c.b2, d.b2), Add(c.b3, d.b3))
  }

  // The operators

  function Rotate(c: Column): Column {
    Column(c.b1, c.b2, c.b3, c.b0)
  }

  function Double(c: Column): Column {
    Column(XTime(c.b0), XTime(c.b1), XTime(c.b2), XTime(c.b3))
  }

  function Spread(c: Column): Column {
    AddColumn(c, Rotate(c))
  }

  lemma ColumnLaws(a: Column, b: Column, c: Column)
    ensures AddColumn(a, AddColumn(b, c)) == AddColumn(AddColumn(a, b), c)
    ensures AddColumn(a, b) == AddColumn(b, a)
    ensures AddColumn(a, a) == ZERO
    ensures AddColumn(a, ZERO) == a && AddColumn(ZERO, a) == a
  {
    hide Add;
    AddLaws(a.b0, b.b0, c.b0);
    AddLaws(a.b1, b.b1, c.b1);
    AddLaws(a.b2, b.b2, c.b2);
    AddLaws(a.b3, b.b3, c.b3);
    AddLaws(0, a.b0, 0);
    AddLaws(0, a.b1, 0);
    AddLaws(0, a.b2, 0);
    AddLaws(0, a.b3, 0);
  }

  lemma Exchange(a: Column, b: Column, c: Column, d: Column)
    ensures AddColumn(AddColumn(a, b), AddColumn(c, d)) == AddColumn(AddColumn(a, c), AddColumn(b, d))
  {
    hide *;
    ColumnLaws(AddColumn(a, b), c, d);
    ColumnLaws(a, b, c);
    ColumnLaws(b, c, c);
    ColumnLaws(a, c, b);
    ColumnLaws(AddColumn(a, c), b, d);
  }

  /** Adding the same column to both terms of a sum leaves the sum as it was. */
  lemma Cancel(a: Column, b: Column, c: Column)
    ensures AddColumn(AddColumn(a, b), AddColumn(b, c)) == AddColumn(a, c)
  {
    hide *;
    ColumnLaws(AddColumn(a, b), b, c);
    ColumnLaws(a, b, b);
    ColumnLaws(a, b, c);
    ColumnLaws(b, b, b);
  }

  lemma RotateAdd(a: Column, b: Column)
    ensures Rotate(AddColumn(a, b)) == AddColumn(Rotate(a), Rotate(b))
  {
    hide Add;
  }

  lemma DoubleAdd(a: Column, b: Column)
    ensures Double(AddColumn(a, b)) == AddColumn(Double(a), Double(b))
  {
    hide XTime, Add;
    XTimeAdd(a.b0, b.b0);
    XTimeAdd(a.b1, b.b1);
    XTimeAdd(a.b2, b.b2);
    XTimeAdd(a.b3, b.b3);
  }

  lemma DoubleZero()
    ensures Double(ZERO) == ZERO && Spread(ZERO) == ZERO
  {
    ColumnLaws(ZERO, ZERO, ZERO);
  }

  lemma SpreadAdd(a: Column, b: Column)
    ensures Spread(AddColumn(a, b)) == AddColumn(Spread(a), Spread(b))
  {
    hide AddColumn, Rotate;
    RotateAdd(a, b);
    Exchange(a, b, Rotate(a), Rotate(b));
  }

  lemma SpreadDouble(c: Column)
    ensures Spread(Double(c)) == Double(Spread(c))
  {
    hide AddColumn, XTime;
    DoubleAdd(c, Rotate(c));
    assert Double(Rotate(c)) == Rotate(Double(c));
  }

  lemma SpreadTwice(c: Column)
    ensures Spread(Spread(c)) == AddColumn(c, Rotate(Rotate(c)))
  {
    hide AddColumn, Rotate;
    RotateAdd(c, Rotate(c));
    Cancel(c, Rotate(c), Rotate(Rotate(c)));
  }

  lemma SpreadFour(c: Column)
    ensures Spread(Spread(Spread(Spread(c)))) == ZERO
  {
    assert Rotate(Rotate(Rotate(Rotate(c)))) == c;
    hide AddColumn, Rotate, Spread;
    SpreadTwice(Spread(Spread(c)));
    SpreadTwice(c);
    RotateAdd(c, Rotate(Rotate(c)));
    RotateAdd(Rotate(c), Rotate(Rotate(Rotate(c))));
    ColumnLaws(c, Rotate(Rotate(c)), c);
    ColumnLaws(AddColumn(c, Rotate(Rotate(c))), ZERO, ZERO);
  }

  // MixColumn and its powers as sums of operators

  lemma Times2(b: Byte)
    ensures Mul(b, 0x02) == XTime(b)
  {
  }

  lemma Times3(b: Byte)
    ensures Mul(b, 0x03) == XTime(b) ^ b
  {
  }

  lemma Times9(b: Byte)
    ensures Mul(b, 0x09) == XTime(XTime(XTime(b))) ^ b
  {
  }

  lemma TimesB(b: Byte)
    ensures Mul(b, 0x0b) == XTime(XTime(XTime(b))) ^ XTime(b) ^ b
  {
  }

  lemma TimesD(b: Byte)
    ensures Mul(b, 0x0d) == XTime(XTime(XTime(b))) ^ XTime(XTime(b)) ^ b
  {
  }

  lemma TimesE(b: Byte)
    ensures Mul(b, 0x0e) == XTime(XTime(XTime(b))) ^ XTime(XTime(b)) ^ XTime(b)
  {
  }

  /** What a row of MixColumns comes to: the other three bytes, and t for the doubled sum of the first two. */
  function MixShape(a: Byte, b: Byte, c: Byte, d: Byte, t: Byte): Byte {
    ((a ^ b) ^ (c ^ d)) ^ a ^ t
  }

  lemma MixShapeAdds(a: Byte, b: Byte, c: Byte, d: Byte, t: Byte)
    ensures MixShape(a, b, c, d, t) == Add(Add(Add(Add(a, b), Add(c, d)), a), t)
  {
  }

  lemma MixShapeSum(a: Byte, b: Byte, c: Byte, d: Byte, x: Byte, y: Byte)
    ensures Sum4(x, y ^ b, c, d) == MixShape(a, b, c, d, x ^ y)
  {
  }

  lemma AddIsXor(a: Byte, b: Byte)
    ensures Add(a, b) == a ^ b
  {
  }

  lemma AddIsXor4(a: Byte, b: Byte, c: Byte, d: Byte)
    ensures Add(Add(a, b), Add(c, d)) == (a ^ b) ^ (c ^ d)
  {
  }

  lemma MixByteForm(a: Byte, b: Byte, c: Byte, d: Byte)
    ensures MixByte(a, b, c, d) == Add(Add(Add(Add(a, b), Add(c, d)), a), XTime(Add(a, b)))
  {
    hide XTime, Mul, Sum4, MixShape, Add;
    Times2(a);
    Times3(b);
    XTimeAdd(a, b);
    AddIsXor(XTime(a), XTime(b));
    MixShapeSum(a, b, c, d, XTime(a), XTime(b));
    MixShapeAdds(a, b, c, d, XTime(Add(a, b)));
  }

  /** What a row of InvMixColumns comes to, with x, y and z for the sums doubled once, twice and three times. */
  function InvMixShape(a: Byte, b: Byte, c: Byte, d: Byte, x: Byte, y: Byte, z: Byte): Byte {
    ((a ^ b) ^ (c ^ d)) ^ a ^ x ^ y ^ z
  }

  lemma InvMixShapeAdds(a: Byte, b: Byte, c: Byte, d: Byte, x: Byte, y: Byte, z: Byte)
    ensures InvMixShape(a, b, c, d, x, y, z) == Add(Add(Add(Add(Add(a, b), Add(c, d)), a), x), Add(y, z))
  {
    MixShapeAdds(a, b, c, d, x);
    assert InvMixShape(a, b, c, d, x, y, z) == Add(MixShape(a, b, c, d, x), Add(y, z));
  }

  lemma InvMixShapeSum(a: Byte, b: Byte, c: Byte, d: Byte, xa: Byte, xb: Byte, ya: Byte, yc: Byte,
                       za: Byte, zb: Byte, zc: Byte, zd: Byte)
    ensures Sum4(za ^ ya ^ xa, zb ^ xb ^ b, zc ^ yc ^ c, zd ^ d) ==
            InvMixShape(a, b, c, d, xa ^ xb, ya ^ yc, (za ^ zb) ^ (zc ^ zd))
  {
  }

  /** Doubling three times distributes over a sum of four. */
  lemma XTimeThrice(a: Byte, b: Byte, c: Byte, d: Byte)
    ensures XTime(XTime(XTime(Add(Add(a, b), Add(c, d))))) ==
            Add(Add(XTime(XTime(XTime(a))), XTime(XTime(XTime(b)))),
                Add(XTime(XTime(XTime(c))), XTime(XTime(XTime(d)))))
  {
    hide XTime, Add;
    XTimeAdd(a, b);
    XTimeAdd(c, d);
    XTimeAdd(Add(a, b), Add(c, d));
    XTimeAdd(XTime(a), XTime(b));
    XTimeAdd(XTime(c), XTime(d));
    XTimeAdd(Add(XTime(a), XTime(b)), Add(XTime(c), XTime(d)));
    XTimeAdd(XTime(XTime(a)), XTime(XTime(b)));
    XTimeAdd(XTime(XTime(c)), XTime(XTime(d)));
    XTimeAdd(Add(XTime(XTime(a)), XTime(XTime(b))), Add(XTime(XTime(c)), XTime(XTime(d))));
  }

  lemma InvMixByteSum(a: Byte, b: Byte, c: Byte, d: Byte)
    ensures InvMixByte(a, b, c, d) ==
            InvMixShape(a, b, c, d, XTime(a) ^ XTime(b), XTime(XTime(a)) ^ XTime(XTime(c)),
                        (XTime(XTime(XTime(a))) ^ XTime(XTime(XTime(b)))) ^
                        (XTime(XTime(XTime(c))) ^ XTime(XTime(XTime(d)))))
  {
    hide XTime, Mul, Sum4, InvMixShape;
    TimesE(a);
    TimesB(b);
    TimesD(c);
    Times9(d);
    InvMixShapeSum(a, b, c, d, XTime(a), XTime(b), XTime(XTime(a)), XTime(XTime(c)),
                   XTime(XTime(XTime(a))), XTime(XTime(XTime(b))), XTime(XTime(XTime(c))), XTime(XTime(XTime(d))));
  }

  lemma InvMixByteForm(a: Byte, b: Byte, c: Byte, d: Byte)
    ensures InvMixByte(a, b, c, d) ==
            Add(Add(Add(Add(Add(a, b), Add(c, d)), a), XTime(Add(a, b))),
                Add(XTime(XTime(Add(a, c))), XTime(XTime(XTime(Add(Add(a, b), Add(c, d)))))))
  {
    hide XTime, InvMixByte, InvMixShape, Add;
    InvMixByteSum(a, b, c, d);
    XTimeAdd(a, b);
    XTimeAdd(a, c);
    XTimeAdd(XTime(a), XTime(c));
    XTimeThrice(a, b, c, d);
    AddIsXor(XTime(a), XTime(b));
    AddIsXor(XTime(XTime(a)), XTime(XTime(c)));
    AddIsXor4(XTime(XTime(XTime(a))), XTime(XTime(XTime(b))), XTime(XTime(XTime(c))), XTime(XTime(XTime(d))));
    InvMixShapeAdds(a, b, c, d, XTime(Add(a, b)), XTime(XTime(Add(a, c))),
                    XTime(XTime(XTime(Add(Add(a, b), Add(c, d))))));
  }

  lemma SpreadThrice(c: Column)
    ensures Spread(Spread(Spread(c))) ==
            Column(Add(Add(c.b0, c.b1), Add(c.b2, c.b3)), Add(Add(c.b1, c.b2), Add(c.b3, c.b0)),
                   Add(Add(c.b2, c.b3), Add(c.b0, c.b1)), Add(Add(c.b3, c.b0), Add(c.b1, c.b2)))
  {
    hide Add;
    SpreadTwice(Spread(c));
  }

  lemma MixColumnForm(c: Column)
    ensures MixColumn(c) == AddColumn(AddColumn(Spread(Spread(Spread(c))), c), Double(Spread(c)))
  {
    hide Add, XTime, MixByte;
    SpreadThrice(c);
    MixByteForm(c.b0, c.b1, c.b2, c.b3);
    MixByteForm(c.b1, c.b2, c.b3, c.b0);
    MixByteForm(c.b2, c.b3, c.b0, c.b1);
    MixByteForm(c.b3, c.b0, c.b1, c.b2);
  }

  lemma InvMixColumnForm(c: Column)
    ensures InvMixColumn(c) ==
            AddColumn(AddColumn(AddColumn(Spread(Spread(Spread(c))), c), Double(Spread(c))),
                      AddColumn(Double(Double(Spread(Spread(c)))), Double(Double(Double(Spread(Spread(Spread(c))))))))
  {
    hide Add, XTime, InvMixByte;
    SpreadThrice(c);
    SpreadTwice(c);
    InvMixByteForm(c.b0, c.b1, c.b2, c.b3);
    InvMixByteForm(c.b1, c.b2, c.b3, c.b0);
    InvMixByteForm(c.b2, c.b3, c.b0, c.b1);
    InvMixByteForm(c.b3, c.b0, c.b1, c.b2);
  }

  lemma SpreadMix(c: Column)
    ensures Spread(MixColumn(c)) == AddColumn(Spread(c), Double(Spread(Spread(c))))
    ensures Spread(Spread(Spread(MixColumn(c)))) == Spread(Spread(Spread(c)))
  {
    hide AddColumn, Spread, Double, MixColumn, ZERO;
    var d := Spread(c);
    MixColumnForm(c);
    SpreadAdd(AddColumn(Spread(Spread(d)), c), Double(d));
    SpreadAdd(Spread(Spread(d)), c);
    SpreadFour(c);
    ColumnLaws(d, d, d);
    SpreadDouble(d);
    SpreadAdd(d, Double(Spread(d)));
    SpreadAdd(Spread(d), Spread(Double(Spread(d))));
    SpreadDouble(Spread(d));
    SpreadDouble(Spread(Spread(d)));
    DoubleZero();
    ColumnLaws(Spread(Spread(d)), d, d);
  }

  /** Applying MixColumn twice adds the sum of each byte and its opposite, doubled twice, to both of them. */
  lemma MixTwice(c: Column)
    ensures MixColumn(MixColumn(c)) == AddColumn(c, Double(Double(Spread(Spread(c)))))
  {
    hide *;
    var m, d := MixColumn(c), Spread(c);
    var t, u, v := Spread(Spread(d)), Double(d), Double(Double(Spread(d)));
    MixColumnForm(m);
    SpreadMix(c);
    MixColumnForm(c);
    DoubleAdd(d, Double(Spread(d)));
    assert MixColumn(m) == AddColumn(AddColumn(t, m), AddColumn(u, v));
    assert m == AddColumn(AddColumn(t, c), u);
    ColumnLaws(t, AddColumn(t, c), u);
    ColumnLaws(t, t, c);
    ColumnLaws(c, t, u);
    assert AddColumn(t, m) == AddColumn(c, u);
    Cancel(c, u, v);
  }

  lemma MixFour(c: Column)
    ensures MixColumn(MixColumn(MixColumn(MixColumn(c)))) == c
  {
    hide *;
    var w := Double(Double(Spread(Spread(c))));
    var n := AddColumn(c, w);
    MixTwice(c);
    MixTwice(n);
    SpreadAdd(c, w);
    SpreadAdd(Spread(c), Spread(w));
    SpreadDouble(Double(Spread(Spread(c))));
    SpreadDouble(Spread(Spread(c)));
    SpreadDouble(Double(Spread(Spread(Spread(c)))));
    SpreadDouble(Spread(Spread(Spread(c))));
    SpreadFour(c);
    DoubleZero();
    ColumnLaws(Spread(Spread(c)), c, c);
    ColumnLaws(c, w, w);
    ColumnLaws(w, w, w);
    ColumnLaws(c, c, c);
  }

  lemma InvMixIsCube(c: Column)
    ensures InvMixColumn(c) == MixColumn(MixColumn(MixColumn(c)))
  {
    hide *;
    var d := Spread(c);
    var t, v := Spread(Spread(d)), Double(Double(Spread(d)));
    var n := AddColumn(c, v);
    MixTwice(c);
    MixColumnForm(n);
    InvMixColumnForm(c);
    SpreadAdd(c, v);
    SpreadDouble(Double(Spread(d)));
    SpreadDouble(Spread(d));
    assert Spread(v) == Double(Double(t));
    SpreadAdd(d, Spread(v));
    SpreadAdd(Spread(d), Spread(Spread(v)));
    SpreadDouble(Double(t));
    SpreadDouble(t);
    SpreadFour(c);
    DoubleZero();
    assert Spread(Spread(v)) == ZERO;
    ColumnLaws(t, t, t);
    assert Spread(Spread(Spread(n))) == t;
    DoubleAdd(d, Double(Double(t)));
    assert MixColumn(n) == AddColumn(AddColumn(t, n), AddColumn(Double(d), Double(Double(Double(t)))));
    ColumnLaws(t, c, v);
    Exchange(AddColumn(t, c), v, Double(d), Double(Double(Double(t))));
  }

  /** InvMixColumns undoes MixColumns, and MixColumns undoes it. */
  lemma MixRoundTrip(c: Column)
    ensures InvMixColumn(MixColumn(c)) == c
    ensures MixColumn(InvMixColumn(c)) == c
  {
    hide *;
    InvMixIsCube(MixColumn(c));
    InvMixIsCube(c);
    MixFour(c);
  }
}
