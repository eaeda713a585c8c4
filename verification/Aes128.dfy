/** The 128-bit vectors of the AES build: lanes, key rectification, and the block operations of the generator. */
module Aes128 {
  import opened Bytes
  import opened MixColumns
  import opened Aes

  const LANE_SIZE := 0x1_0000_0000_0000_0000 // 2^64

  const WYPRIME0 := 0x2d358dccaa6c78a5
  const WYPRIME1 := 0x8bb84b93962eacc9
  const WYPRIME2 := 0x4b33a62ed433d4a3
  const WYPRIME3 := 0x4d5a2da51de1aa47

  // A vector in memory, and its two 64-bit lanes

  function ColumnBytes(c: Column): (s: seq<Byte>)
    ensures |s| == 4
  {
    [c.b0, c.b1, c.b2, c.b3]
  }

  function LoBytes(a: Block): (s: seq<Byte>)
    ensures |s| == 8
  {
    ColumnBytes(a.c0) + ColumnBytes(a.c1)
  }

  function HiBytes(a: Block): (s: seq<Byte>)
    ensures |s| == 8
  {
    ColumnBytes(a.c2) + ColumnBytes(a.c3)
  }

  function ToBytes(a: Block): (s: seq<Byte>)
    ensures |s| == 16
  {
    LoBytes(a) + HiBytes(a)
  }

  function ToColumn(s: seq<Byte>): Column
    requires |s| == 4
  {
    Column(s[0], s[1], s[2], s[3])
  }

  /** The vector with these two lanes. */
  function FromLaneBytes(lo: seq<Byte>, hi: seq<Byte>): (a: Block)
    requires |lo| == 8 && |hi| == 8
    ensures LoBytes(a) == lo && HiBytes(a) == hi
  {
    Block(ToColumn(lo[..4]), ToColumn(lo[4..]), ToColumn(hi[..4]), ToColumn(hi[4..]))
  }

  /** The lanes as unsigned integers. */
  function Lo(a: Block): nat { Word(LoBytes(a)) }

  function Hi(a: Block): nat { Word(HiBytes(a)) }

  /** _mm_set_epi64x, with the low lane first, and its arguments taken modulo 2^64. */
  function FromLanes(lo: nat, hi: nat): Block {
    FromLaneBytes(Store(lo, 8), Store(hi, 8))
  }

  /** _mm_add_epi64. */
  function AddLanes(a: Block, b: Block): Block {
    FromLanes(Lo(a) + Lo(b), Hi(a) + Hi(b))
  }

  lemma LaneSize()
    ensures Pow256(8) == LANE_SIZE
  {
    WordSizes();
  }

  lemma LanesOf(lo: nat, hi: nat)
    ensures Lo(FromLanes(lo, hi)) == lo % LANE_SIZE
    ensures Hi(FromLanes(lo, hi)) == hi % LANE_SIZE
  {
    LaneSize();
    WordStore(lo, 8);
    WordStore(hi, 8);
  }

  lemma LoHiBytesInjective(a: Block, b: Block)
    requires LoBytes(a) == LoBytes(b) && HiBytes(a) == HiBytes(b)
    ensures a == b
  {
    assert forall i | 0 <= i < 8 :: LoBytes(a)[i] == LoBytes(b)[i] && HiBytes(a)[i] == HiBytes(b)[i];
    assert LoBytes(a)[0] == a.c0.b0 && LoBytes(a)[4] == a.c1.b0;
    ColumnsEqual(a.c0, b.c0, LoBytes(a)[..4], LoBytes(b)[..4]);
    ColumnsEqual(a.c1, b.c1, LoBytes(a)[4..], LoBytes(b)[4..]);
    ColumnsEqual(a.c2, b.c2, HiBytes(a)[..4], HiBytes(b)[..4]);
    ColumnsEqual(a.c3, b.c3, HiBytes(a)[4..], HiBytes(b)[4..]);
  }

  lemma ColumnsEqual(c: Column, d: Column, s: seq<Byte>, t: seq<Byte>)
    requires s == ColumnBytes(c) && t == ColumnBytes(d) && s == t
    ensures c == d
  {
    assert s[0] == t[0] && s[1] == t[1] && s[2] == t[2] && s[3] == t[3];
  }

  /** A vector is determined by its lanes. */
  lemma LanesInjective(a: Block, b: Block)
    requires Lo(a) == Lo(b) && Hi(a) == Hi(b)
    ensures a == b
  {
    WordInjective(LoBytes(a), LoBytes(b));
    WordInjective(HiBytes(a), HiBytes(b));
    LoHiBytesInjective(a, b);
  }

  lemma ToBytesInjective(a: Block, b: Block)
    ensures ToBytes(a) == ToBytes(b) <==> a == b
  {
    if ToBytes(a) == ToBytes(b) {
      assert ToBytes(a)[..8] == LoBytes(a) && ToBytes(b)[..8] == LoBytes(b);
      assert ToBytes(a)[8..] == HiBytes(a) && ToBytes(b)[8..] == HiBytes(b);
      LoHiBytesInjective(a, b);
    }
  }

  /** A vector in memory is the low lane and then the high one, each least significant byte first. */
  lemma BytesAreLanes(a: Block)
    ensures Word(ToBytes(a)) == Lo(a) + LANE_SIZE * Hi(a)
    ensures Word(ToBytes(a)[..8]) == Lo(a) && Word(ToBytes(a)[8..]) == Hi(a)
  {
    hide Word, Pow256;
    LaneSize();
    WordConcat(LoBytes(a), HiBytes(a));
    assert ToBytes(a)[..8] == LoBytes(a) && ToBytes(a)[8..] == HiBytes(a);
  }

  // rectify_key_128

  /** A mask per lane: all ones where the lanes of a and b agree, all zeros elsewhere. */
  function EqualMask(a: Block, b: Block): Block {
    var ones := Column(0xff, 0xff, 0xff, 0xff);
    var lo := if a.c0 == b.c0 && a.c1 == b.c1 then ones else ZERO;
    var hi := if a.c2 == b.c2 && a.c3 == b.c3 then ones else ZERO;
    Block(lo, lo, hi, hi)
  }

  function AndColumn(c: Column, d: Column): Column {
    Column(c.b0 & d.b0, c.b1 & d.b1, c.b2 & d.b2, c.b3 & d.b3)
  }

  function And(a: Block, b: Block): Block {
    Block(AndColumn(a.c0, b.c0), AndColumn(a.c1, b.c1), AndColumn(a.c2, b.c2), AndColumn(a.c3, b.c3))
  }

  function Rectify(mask: Block, key: Block): Block {
    Xor(key, And(EqualMask(key, SwapLanes(key)), mask))
  }

  lemma AndExtremes(d: Column)
    ensures AndColumn(Column(0xff, 0xff, 0xff, 0xff), d) == d
    ensures AndColumn(ZERO, d) == ZERO
  {
  }

  /** The masks apply to both lanes or to neither. */
  lemma RectifyCases(mask: Block, key: Block)
    ensures Rectify(mask, key) == if LanesEqual(key) then Xor(key, mask) else key
  {
    hide AddColumn, AndColumn;
    AndExtremes(mask.c0);
    AndExtremes(mask.c1);
    AndExtremes(mask.c2);
    AndExtremes(mask.c3);
    ColumnLaws(key.c0, ZERO, ZERO);
    ColumnLaws(key.c1, ZERO, ZERO);
    ColumnLaws(key.c2, ZERO, ZERO);
    ColumnLaws(key.c3, ZERO, ZERO);
  }

  /** Rectification always ends with unequal lanes, leaves a key that has them alone, and changes nothing twice. */
  lemma RectifyLaws(mask: Block, key: Block)
    requires !LanesEqual(mask)
    ensures !LanesEqual(Rectify(mask, key))
    ensures Rectify(mask, key) == key <==> !LanesEqual(key)
    ensures Rectify(mask, Rectify(mask, key)) == Rectify(mask, key)
  {
    RectifyCases(mask, key);
    RectifyCases(mask, Rectify(mask, key));
    hide Rectify, Xor, SwapLanes, LanesEqual;
    var x := Xor(key, mask);
    SwapLanesLaws(x, x);
    SwapLanesLaws(key, mask);
    SwapLanesLaws(mask, mask);
    XorCancels(key, mask, SwapLanes(mask));
  }

  /** SHA-512's H0[0] and H0[1]. */
  function KeyMask01(): Block { FromLanes(0x6a09e667f3bcc908, 0xbb67ae8584caa73b) }

  /** SHA-512's H0[2] and H0[3], which the VAES build uses on the high halves. */
  function KeyMask23(): Block { FromLanes(0x3c6ef372fe94f82b, 0xa54ff53a5f1d36f1) }

  lemma LanesEqualMeans(a: Block)
    ensures LanesEqual(a) <==> Lo(a) == Hi(a)
  {
    if Lo(a) == Hi(a) {
      WordInjective(LoBytes(a), HiBytes(a));
      LaneBytesEqual(a);
    }
  }

  lemma LaneBytesEqual(a: Block)
    requires LoBytes(a) == HiBytes(a)
    ensures LanesEqual(a)
  {
    ColumnsEqual(a.c0, a.c2, LoBytes(a)[..4], HiBytes(a)[..4]);
    ColumnsEqual(a.c1, a.c3, LoBytes(a)[4..], HiBytes(a)[4..]);
  }

  lemma KeyMasksUnequal()
    ensures Lo(KeyMask01()) == 0x6a09e667f3bcc908 && Hi(KeyMask01()) == 0xbb67ae8584caa73b
    ensures Lo(KeyMask23()) == 0x3c6ef372fe94f82b && Hi(KeyMask23()) == 0xa54ff53a5f1d36f1
    ensures !LanesEqual(KeyMask01()) && !LanesEqual(KeyMask23())
  {
    hide Lo, Hi, FromLanes, LanesEqual;
    LanesOf(0x6a09e667f3bcc908, 0xbb67ae8584caa73b);
    LanesOf(0x3c6ef372fe94f82b, 0xa54ff53a5f1d36f1);
    LanesEqualMeans(KeyMask01());
    LanesEqualMeans(KeyMask23());
  }
}
