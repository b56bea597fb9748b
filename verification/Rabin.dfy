/**
 * The fingerprint of the delta encoder: 31-bit values, bytes entering at the
 * bottom, and the two word tables the encoder carries.
 */
module Rabin {
  import opened Rolling

  datatype Word = Word(bits: bv32)

  function Xor(a: Word, b: Word): Word { Word(a.bits ^ b.bits) }

  const XOR: (Word, Word) -> Word := (a, b) => Xor(a, b)

  const ZERO: Word := Word(0)

  type Table = byte -> Word

  /** `v` moved up a byte, with `b` at the bottom. */
  function Shift(v: Word, b: byte): Word {
    Word((v.bits << 8) | (b as bv32))
  }

  /** The top eight bits of a 31-bit value: the index into the reduction table. */
  function Top(v: Word): byte {
    ((v.bits >> 23) & 0xff) as byte
  }

  const REGISTER: Register<Word> := Register(XOR, (v, b) => Shift(v, b), v => Top(v), ZERO)

  /** The encoder's rolling value, for a given reduction table. */
  function Fingerprinter(t: Table): Machine<Word> {
    Reducing(REGISTER, t)
  }

  /** A value the encoder can hold: bit 31 is clear, so shifting it right by 23 gives a table index. */
  predicate Fits(v: Word) { v.bits < 0x8000_0000 }

  /** The value shifted right by 23 is the table index that is used for it, within the table. */
  predicate Indexes(v: Word) { v.bits >> 23 < 0x100 && Top(v) == (v.bits >> 23) as byte }

  lemma TopIsShift(v: Word)
    requires Fits(v)
    ensures Indexes(v)
  {}

  /** Bit 31 of an entry is the low bit of its index. */
  predicate TopBitAt(t: Table, x: byte) {
    t(x).bits & 0x8000_0000 == if x & 1 == 1 then 0x8000_0000 else 0
  }

  /** A reduction table: linear, and clearing the bit that would not fit. */
  ghost predicate Reduces(t: Table) {
    Linear(t, XOR) && forall x: byte :: TopBitAt(t, x)
  }

  lemma StepFits(t: Table, v: Word, b: byte)
    requires Reduces(t) && Fits(v)
    ensures Fits(Fingerprinter(t).step(v, b))
  {
    assert TopBitAt(t, Top(v));
    ShiftFits(v, b, t(Top(v)));
  }

  lemma ShiftFits(v: Word, b: byte, t: Word)
    requires Fits(v) && t.bits & 0x8000_0000 == if Top(v) & 1 == 1 then 0x8000_0000 else 0
    ensures Fits(Xor(Shift(v, b), t))
  {}

  // ----- exclusive or -----

  lemma XorSwap(a: Word, b: Word, c: Word, d: Word)
    ensures Xor(Xor(a, b), Xor(c, d)) == Xor(Xor(a, c), Xor(b, d))
  {}

  lemma XorSwaps()
    ensures forall a: Word, b: Word, c: Word, d: Word :: SwapsAt(XOR, a, b, c, d)
  {
    forall a: Word, b: Word, c: Word, d: Word ensures SwapsAt(XOR, a, b, c, d) {
      XorSwap(a, b, c, d);
    }
  }

  lemma XorCancel(a: Word, b: Word)
    ensures Xor(Xor(a, b), b) == a
  {}

  lemma ShiftXor(v: Word, w: Word, b: byte)
    ensures Shift(Xor(v, w), b) == Xor(Shift(v, b), Shift(w, 0))
  {}

  lemma TopXor(v: Word, w: Word)
    ensures Top(Xor(v, w)) == Top(v) ^ Top(w)
  {}

  lemma RegisterIsRegular()
    ensures Regular(REGISTER)
  {
    XorSwaps();
    forall v: Word, w: Word, b: byte ensures ShiftLinearAt(REGISTER, v, w, b) {
      ShiftXor(v, w, b);
      TopXor(v, w);
    }
    forall v: Word, w: Word ensures XOR(XOR(v, w), w) == v { XorCancel(v, w); }
  }

  // ----- the tables in use -----

  /** The reduction table: sixteen rows of sixteen words. */
  const T_ROWS: seq<seq<bv32>> := [
    [ 0x00000000, 0xab59b4d1, 0x56b369a2, 0xfdeadd73, 0x063f6795, 0xad66d344, 0x508c0e37, 0xfbd5bae6,
      0x0c7ecf2a, 0xa7277bfb, 0x5acda688, 0xf1941259, 0x0a41a8bf, 0xa1181c6e, 0x5cf2c11d, 0xf7ab75cc ],
    [ 0x18fd9e54, 0xb3a42a85, 0x4e4ef7f6, 0xe5174327, 0x1ec2f9c1, 0xb59b4d10, 0x48719063, 0xe32824b2,
      0x1483517e, 0xbfdae5af, 0x423038dc, 0xe9698c0d, 0x12bc36eb, 0xb9e5823a, 0x440f5f49, 0xef56eb98 ],
    [ 0x31fb3ca8, 0x9aa28879, 0x6748550a, 0xcc11e1db, 0x37c45b3d, 0x9c9defec, 0x6177329f, 0xca2e864e,
      0x3d85f382, 0x96dc4753, 0x6b369a20, 0xc06f2ef1, 0x3bba9417, 0x90e320c6, 0x6d09fdb5, 0xc6504964 ],
    [ 0x2906a2fc, 0x825f162d, 0x7fb5cb5e, 0xd4ec7f8f, 0x2f39c569, 0x846071b8, 0x798aaccb, 0xd2d3181a,
      0x25786dd6, 0x8e21d907, 0x73cb0474, 0xd892b0a5, 0x23470a43, 0x881ebe92, 0x75f463e1, 0xdeadd730 ],
    [ 0x63f67950, 0xc8afcd81, 0x354510f2, 0x9e1ca423, 0x65c91ec5, 0xce90aa14, 0x337a7767, 0x9823c3b6,
      0x6f88b67a, 0xc4d102ab, 0x393bdfd8, 0x92626b09, 0x69b7d1ef, 0xc2ee653e, 0x3f04b84d, 0x945d0c9c ],
    [ 0x7b0be704, 0xd05253d5, 0x2db88ea6, 0x86e13a77, 0x7d348091, 0xd66d3440, 0x2b87e933, 0x80de5de2,
      0x7775282e, 0xdc2c9cff, 0x21c6418c, 0x8a9ff55d, 0x714a4fbb, 0xda13fb6a, 0x27f92619, 0x8ca092c8 ],
    [ 0x520d45f8, 0xf954f129, 0x04be2c5a, 0xafe7988b, 0x5432226d, 0xff6b96bc, 0x02814bcf, 0xa9d8ff1e,
      0x5e738ad2, 0xf52a3e03, 0x08c0e370, 0xa39957a1, 0x584ced47, 0xf3155996, 0x0eff84e5, 0xa5a63034 ],
    [ 0x4af0dbac, 0xe1a96f7d, 0x1c43b20e, 0xb71a06df, 0x4ccfbc39, 0xe79608e8, 0x1a7cd59b, 0xb125614a,
      0x468e1486, 0xedd7a057, 0x103d7d24, 0xbb64c9f5, 0x40b17313, 0xebe8c7c2, 0x16021ab1, 0xbd5bae60 ],
    [ 0x6cb54671, 0xc7ecf2a0, 0x3a062fd3, 0x915f9b02, 0x6a8a21e4, 0xc1d39535, 0x3c394846, 0x9760fc97,
      0x60cb895b, 0xcb923d8a, 0x3678e0f9, 0x9d215428, 0x66f4eece, 0xcdad5a1f, 0x3047876c, 0x9b1e33bd ],
    [ 0x7448d825, 0xdf116cf4, 0x22fbb187, 0x89a20556, 0x7277bfb0, 0xd92e0b61, 0x24c4d612, 0x8f9d62c3,
      0x7836170f, 0xd36fa3de, 0x2e857ead, 0x85dcca7c, 0x7e09709a, 0xd550c44b, 0x28ba1938, 0x83e3ade9 ],
    [ 0x5d4e7ad9, 0xf617ce08, 0x0bfd137b, 0xa0a4a7aa, 0x5b711d4c, 0xf028a99d, 0x0dc274ee, 0xa69bc03f,
      0x5130b5f3, 0xfa690122, 0x0783dc51, 0xacda6880, 0x570fd266, 0xfc5666b7, 0x01bcbbc4, 0xaae50f15 ],
    [ 0x45b3e48d, 0xeeea505c, 0x13008d2f, 0xb85939fe, 0x438c8318, 0xe8d537c9, 0x153feaba, 0xbe665e6b,
      0x49cd2ba7, 0xe2949f76, 0x1f7e4205, 0xb427f6d4, 0x4ff24c32, 0xe4abf8e3, 0x19412590, 0xb2189141 ],
    [ 0x0f433f21, 0xa41a8bf0, 0x59f05683, 0xf2a9e252, 0x097c58b4, 0xa225ec65, 0x5fcf3116, 0xf49685c7,
      0x033df00b, 0xa86444da, 0x558e99a9, 0xfed72d78, 0x0502979e, 0xae5b234f, 0x53b1fe3c, 0xf8e84aed ],
    [ 0x17bea175, 0xbce715a4, 0x410dc8d7, 0xea547c06, 0x1181c6e0, 0xbad87231, 0x4732af42, 0xec6b1b93,
      0x1bc06e5f, 0xb099da8e, 0x4d7307fd, 0xe62ab32c, 0x1dff09ca, 0xb6a6bd1b, 0x4b4c6068, 0xe015d4b9 ],
    [ 0x3eb80389, 0x95e1b758, 0x680b6a2b, 0xc352defa, 0x3887641c, 0x93ded0cd, 0x6e340dbe, 0xc56db96f,
      0x32c6cca3, 0x999f7872, 0x6475a501, 0xcf2c11d0, 0x34f9ab36, 0x9fa01fe7, 0x624ac294, 0xc9137645 ],
    [ 0x26459ddd, 0x8d1c290c, 0x70f6f47f, 0xdbaf40ae, 0x207afa48, 0x8b234e99, 0x76c993ea, 0xdd90273b,
      0x2a3b52f7, 0x8162e626, 0x7c883b55, 0xd7d18f84, 0x2c043562, 0x875d81b3, 0x7ab75cc0, 0xd1eee811 ]
  ]

  /** The removal table, laid out the same way. */
  const U_ROWS: seq<seq<bv32>> := [
    [ 0x00000000, 0x7eb5200d, 0x5633f4cb, 0x2886d4c6, 0x073e5d47, 0x798b7d4a, 0x510da98c, 0x2fb88981,
      0x0e7cba8e, 0x70c99a83, 0x584f4e45, 0x26fa6e48, 0x0942e7c9, 0x77f7c7c4, 0x5f711302, 0x21c4330f ],
    [ 0x1cf9751c, 0x624c5511, 0x4aca81d7, 0x347fa1da, 0x1bc7285b, 0x65720856, 0x4df4dc90, 0x3341fc9d,
      0x1285cf92, 0x6c30ef9f, 0x44b63b59, 0x3a031b54, 0x15bb92d5, 0x6b0eb2d8, 0x4388661e, 0x3d3d4613 ],
    [ 0x39f2ea38, 0x4747ca35, 0x6fc11ef3, 0x11743efe, 0x3eccb77f, 0x40799772, 0x68ff43b4, 0x164a63b9,
      0x378e50b6, 0x493b70bb, 0x61bda47d, 0x1f088470, 0x30b00df1, 0x4e052dfc, 0x6683f93a, 0x1836d937 ],
    [ 0x250b9f24, 0x5bbebf29, 0x73386bef, 0x0d8d4be2, 0x2235c263, 0x5c80e26e, 0x740636a8, 0x0ab316a5,
      0x2b7725aa, 0x55c205a7, 0x7d44d161, 0x03f1f16c, 0x2c4978ed, 0x52fc58e0, 0x7a7a8c26, 0x04cfac2b ],
    [ 0x73e5d470, 0x0d50f47d, 0x25d620bb, 0x5b6300b6, 0x74db8937, 0x0a6ea93a, 0x22e87dfc, 0x5c5d5df1,
      0x7d996efe, 0x032c4ef3, 0x2baa9a35, 0x551fba38, 0x7aa733b9, 0x041213b4, 0x2c94c772, 0x5221e77f ],
    [ 0x6f1ca16c, 0x11a98161, 0x392f55a7, 0x479a75aa, 0x6822fc2b, 0x1697dc26, 0x3e1108e0, 0x40a428ed,
      0x61601be2, 0x1fd53bef, 0x3753ef29, 0x49e6cf24, 0x665e46a5, 0x18eb66a8, 0x306db26e, 0x4ed89263 ],
    [ 0x4a173e48, 0x34a21e45, 0x1c24ca83, 0x6291ea8e, 0x4d29630f, 0x339c4302, 0x1b1a97c4, 0x65afb7c9,
      0x446b84c6, 0x3adea4cb, 0x1258700d, 0x6ced5000, 0x4355d981, 0x3de0f98c, 0x15662d4a, 0x6bd30d47 ],
    [ 0x56ee4b54, 0x285b6b59, 0x00ddbf9f, 0x7e689f92, 0x51d01613, 0x2f65361e, 0x07e3e2d8, 0x7956c2d5,
      0x5892f1da, 0x2627d1d7, 0x0ea10511, 0x7014251c, 0x5facac9d, 0x21198c90, 0x099f5856, 0x772a785b ],
    [ 0x4c921c31, 0x32273c3c, 0x1aa1e8fa, 0x6414c8f7, 0x4bac4176, 0x3519617b, 0x1d9fb5bd, 0x632a95b0,
      0x42eea6bf, 0x3c5b86b2, 0x14dd5274, 0x6a687279, 0x45d0fbf8, 0x3b65dbf5, 0x13e30f33, 0x6d562f3e ],
    [ 0x506b692d, 0x2ede4920, 0x06589de6, 0x78edbdeb, 0x5755346a, 0x29e01467, 0x0166c0a1, 0x7fd3e0ac,
      0x5e17d3a3, 0x20a2f3ae, 0x08242768, 0x76910765, 0x59298ee4, 0x279caee9, 0x0f1a7a2f, 0x71af5a22 ],
    [ 0x7560f609, 0x0bd5d604, 0x235302c2, 0x5de622cf, 0x725eab4e, 0x0ceb8b43, 0x246d5f85, 0x5ad87f88,
      0x7b1c4c87, 0x05a96c8a, 0x2d2fb84c, 0x539a9841, 0x7c2211c0, 0x029731cd, 0x2a11e50b, 0x54a4c506 ],
    [ 0x69998315, 0x172ca318, 0x3faa77de, 0x411f57d3, 0x6ea7de52, 0x1012fe5f, 0x38942a99, 0x46210a94,
      0x67e5399b, 0x19501996, 0x31d6cd50, 0x4f63ed5d, 0x60db64dc, 0x1e6e44d1, 0x36e89017, 0x485db01a ],
    [ 0x3f77c841, 0x41c2e84c, 0x69443c8a, 0x17f11c87, 0x38499506, 0x46fcb50b, 0x6e7a61cd, 0x10cf41c0,
      0x310b72cf, 0x4fbe52c2, 0x67388604, 0x198da609, 0x36352f88, 0x48800f85, 0x6006db43, 0x1eb3fb4e ],
    [ 0x238ebd5d, 0x5d3b9d50, 0x75bd4996, 0x0b08699b, 0x24b0e01a, 0x5a05c017, 0x728314d1, 0x0c3634dc,
      0x2df207d3, 0x534727de, 0x7bc1f318, 0x0574d315, 0x2acc5a94, 0x54797a99, 0x7cffae5f, 0x024a8e52 ],
    [ 0x06852279, 0x78300274, 0x50b6d6b2, 0x2e03f6bf, 0x01bb7f3e, 0x7f0e5f33, 0x57888bf5, 0x293dabf8,
      0x08f998f7, 0x764cb8fa, 0x5eca6c3c, 0x207f4c31, 0x0fc7c5b0, 0x7172e5bd, 0x59f4317b, 0x27411176 ],
    [ 0x1a7c5765, 0x64c97768, 0x4c4fa3ae, 0x32fa83a3, 0x1d420a22, 0x63f72a2f, 0x4b71fee9, 0x35c4dee4,
      0x1400edeb, 0x6ab5cde6, 0x42331920, 0x3c86392d, 0x133eb0ac, 0x6d8b90a1, 0x450d4467, 0x3bb8646a ]
  ]

  lemma RowShapes(r: nat)
    requires r < 16
    ensures |T_ROWS| == 16 && |U_ROWS| == 16 && |T_ROWS[r]| == 16 && |U_ROWS[r]| == 16
  {}

  function TWord(x: byte): bv32 {
    RowShapes((x >> 4) as int);
    T_ROWS[(x >> 4) as int][(x & 0x0f) as int]
  }

  function UWord(x: byte): bv32 {
    RowShapes((x >> 4) as int);
    U_ROWS[(x >> 4) as int][(x & 0x0f) as int]
  }

  const T_TABLE: Table := x => Word(TWord(x))
  const U_TABLE: Table := x => Word(UWord(x))

  lemma TSplitsLow(x: byte)
    requires x < 0x80
    ensures TWord(x) == TWord(x & 0xf0) ^ TWord(x & 0x0f)
  {
    if x < 0x10 {} else if x < 0x20 {} else if x < 0x30 {} else if x < 0x40 {} else if x < 0x50 {}
    else if x < 0x60 {} else if x < 0x70 {}
  }

  lemma TSplitsHigh(x: byte)
    requires 0x80 <= x
    ensures TWord(x) == TWord(x & 0xf0) ^ TWord(x & 0x0f)
  {
    if x < 0x90 {} else if x < 0xa0 {} else if x < 0xb0 {} else if x < 0xc0 {} else if x < 0xd0 {}
    else if x < 0xe0 {} else if x < 0xf0 {}
  }

  lemma TLowLinear(x: byte, y: byte)
    requires x < 16 && y < 16
    ensures TWord(x ^ y) == TWord(x) ^ TWord(y)
  {
    if x == 0x00 {} else if x == 0x01 {} else if x == 0x02 {} else if x == 0x03 {} else if x == 0x04 {}
    else if x == 0x05 {} else if x == 0x06 {} else if x == 0x07 {} else if x == 0x08 {} else if x == 0x09 {}
    else if x == 0x0a {} else if x == 0x0b {} else if x == 0x0c {} else if x == 0x0d {} else if x == 0x0e {}
  }

  lemma THighLinear(x: byte, y: byte)
    requires x & 0x0f == 0 && y & 0x0f == 0
    ensures TWord(x ^ y) == TWord(x) ^ TWord(y)
  {
    if x == 0x00 {} else if x == 0x10 {} else if x == 0x20 {} else if x == 0x30 {} else if x == 0x40 {}
    else if x == 0x50 {} else if x == 0x60 {} else if x == 0x70 {} else if x == 0x80 {} else if x == 0x90 {}
    else if x == 0xa0 {} else if x == 0xb0 {} else if x == 0xc0 {} else if x == 0xd0 {} else if x == 0xe0 {}
  }

  lemma USplitsLow(x: byte)
    requires x < 0x80
    ensures UWord(x) == UWord(x & 0xf0) ^ UWord(x & 0x0f)
  {
    if x < 0x10 {} else if x < 0x20 {} else if x < 0x30 {} else if x < 0x40 {} else if x < 0x50 {}
    else if x < 0x60 {} else if x < 0x70 {}
  }

  lemma USplitsHigh(x: byte)
    requires 0x80 <= x
    ensures UWord(x) == UWord(x & 0xf0) ^ UWord(x & 0x0f)
  {
    if x < 0x90 {} else if x < 0xa0 {} else if x < 0xb0 {} else if x < 0xc0 {} else if x < 0xd0 {}
    else if x < 0xe0 {} else if x < 0xf0 {}
  }

  lemma ULowLinear(x: byte, y: byte)
    requires x < 16 && y < 16
    ensures UWord(x ^ y) == UWord(x) ^ UWord(y)
  {
    if x == 0x00 {} else if x == 0x01 {} else if x == 0x02 {} else if x == 0x03 {} else if x == 0x04 {}
    else if x == 0x05 {} else if x == 0x06 {} else if x == 0x07 {} else if x == 0x08 {} else if x == 0x09 {}
    else if x == 0x0a {} else if x == 0x0b {} else if x == 0x0c {} else if x == 0x0d {} else if x == 0x0e {}
  }

  lemma UHighLinear(x: byte, y: byte)
    requires x & 0x0f == 0 && y & 0x0f == 0
    ensures UWord(x ^ y) == UWord(x) ^ UWord(y)
  {
    if x == 0x00 {} else if x == 0x10 {} else if x == 0x20 {} else if x == 0x30 {} else if x == 0x40 {}
    else if x == 0x50 {} else if x == 0x60 {} else if x == 0x70 {} else if x == 0x80 {} else if x == 0x90 {}
    else if x == 0xa0 {} else if x == 0xb0 {} else if x == 0xc0 {} else if x == 0xd0 {} else if x == 0xe0 {}
  }


  lemma TSplitsAll()
    ensures forall x: byte :: SplitsAt(T_TABLE, XOR, x)
  {
    forall x: byte ensures SplitsAt(T_TABLE, XOR, x) {
      if x < 0x80 { TSplitsLow(x); } else { TSplitsHigh(x); }
    }
  }

  lemma TLowLinearAll()
    ensures forall x: byte, y: byte :: x < 16 && y < 16 ==> LinearAt(T_TABLE, XOR, x, y)
  {
    forall x: byte, y: byte | x < 16 && y < 16 ensures LinearAt(T_TABLE, XOR, x, y) {
      TLowLinear(x, y);
    }
  }

  lemma THighLinearAll()
    ensures forall x: byte, y: byte :: x & 0x0f == 0 && y & 0x0f == 0 ==> LinearAt(T_TABLE, XOR, x, y)
  {
    forall x: byte, y: byte | x & 0x0f == 0 && y & 0x0f == 0 ensures LinearAt(T_TABLE, XOR, x, y) {
      THighLinear(x, y);
    }
  }

  lemma TIsLinear()
    ensures Linear(T_TABLE, XOR)
  {
    XorSwaps();
    TSplitsAll();
    TLowLinearAll();
    THighLinearAll();
    NibbleLinearIsLinear(T_TABLE, XOR);
  }

  lemma USplitsAll()
    ensures forall x: byte :: SplitsAt(U_TABLE, XOR, x)
  {
    forall x: byte ensures SplitsAt(U_TABLE, XOR, x) {
      if x < 0x80 { USplitsLow(x); } else { USplitsHigh(x); }
    }
  }

  lemma ULowLinearAll()
    ensures forall x: byte, y: byte :: x < 16 && y < 16 ==> LinearAt(U_TABLE, XOR, x, y)
  {
    forall x: byte, y: byte | x < 16 && y < 16 ensures LinearAt(U_TABLE, XOR, x, y) {
      ULowLinear(x, y);
    }
  }

  lemma UHighLinearAll()
    ensures forall x: byte, y: byte :: x & 0x0f == 0 && y & 0x0f == 0 ==> LinearAt(U_TABLE, XOR, x, y)
  {
    forall x: byte, y: byte | x & 0x0f == 0 && y & 0x0f == 0 ensures LinearAt(U_TABLE, XOR, x, y) {
      UHighLinear(x, y);
    }
  }

  lemma UIsLinear()
    ensures Linear(U_TABLE, XOR)
  {
    XorSwaps();
    USplitsAll();
    ULowLinearAll();
    UHighLinearAll();
    NibbleLinearIsLinear(U_TABLE, XOR);
  }


  // ----- the reduction table clears bit 31 -----

  lemma TTopBitLow(x: byte)
    requires x < 16
    ensures TWord(x) & 0x8000_0000 == if x & 1 == 1 then 0x8000_0000 else 0
  {}

  lemma TTopBitHigh(x: byte)
    requires x & 0x0f == 0
    ensures TWord(x) & 0x8000_0000 == 0
  {}

  lemma TTopBit(x: byte)
    ensures TopBitAt(T_TABLE, x)
  {
    if x < 0x80 { TSplitsLow(x); } else { TSplitsHigh(x); }
    TTopBitHigh(x & 0xf0);
    TTopBitLow(x & 0x0f);
    assert (x & 0x0f) & 1 == x & 1;
  }

  lemma TReduces()
    ensures Reduces(T_TABLE)
  {
    TIsLinear();
    forall x: byte ensures TopBitAt(T_TABLE, x) { TTopBit(x); }
  }

  // ----- a byte at a time is eight times a bit -----

  /** The polynomial that values are reduced by; its top bit is the one that does not fit. */
  const POLYNOMIAL: bv32 := 0xab59b4d1

  /** `v` moved up a bit, with `b` at the bottom. */
  function ShiftBit(v: Word, b: byte): Word { Word((v.bits << 1) ^ (b as bv32)) }

  /** The top bit of a 31-bit value. */
  function TopBit(v: Word): byte { ((v.bits >> 30) & 1) as byte }

  function Reduction(x: byte): Word { if x & 1 == 0 then ZERO else Word(POLYNOMIAL) }

  const BIT_REGISTER: Register<Word> := Register(XOR, (v, b) => ShiftBit(v, b), v => TopBit(v), ZERO)

  const BIT_TABLE: Table := x => Reduction(x)

  /** The machine that takes bits rather than bytes. */
  const BITWISE: Machine<Word> := Reducing(BIT_REGISTER, BIT_TABLE)

  lemma ShiftBitXor(v: Word, w: Word, b: byte)
    ensures ShiftBit(Xor(v, w), b) == Xor(ShiftBit(v, b), ShiftBit(w, 0))
  {}

  lemma TopBitXor(v: Word, w: Word)
    ensures TopBit(Xor(v, w)) == TopBit(v) ^ TopBit(w)
  {}

  lemma ReductionXor(x: byte, y: byte)
    ensures Reduction(x ^ y) == Xor(Reduction(x), Reduction(y))
  {
    assert ((x ^ y) & 1 == 0) == ((x & 1 == 0) == (y & 1 == 0));
  }

  lemma BitRegisterIsRegular()
    ensures Regular(BIT_REGISTER)
  {
    XorSwaps();
    forall v: Word, w: Word, b: byte ensures ShiftLinearAt(BIT_REGISTER, v, w, b) {
      ShiftBitXor(v, w, b);
      TopBitXor(v, w);
    }
    forall v: Word, w: Word ensures XOR(XOR(v, w), w) == v { XorCancel(v, w); }
  }

  lemma BitwiseIsLawful()
    ensures Lawful(BITWISE)
  {
    BitRegisterIsRegular();
    forall x: byte, y: byte ensures LinearAt(BIT_TABLE, XOR, x, y) { ReductionXor(x, y); }
    ReducingIsLawful(BIT_REGISTER, BIT_TABLE);
  }

  /** One bit, and eight bits. */
  function Twice(v: bv32): bv32 { (v << 1) ^ if v & 0x4000_0000 == 0 then 0 else POLYNOMIAL }

  function Eight(v: bv32): bv32 { Twice(Twice(Twice(Twice(Twice(Twice(Twice(Twice(v)))))))) }

  lemma BitTest(v: bv32)
    ensures (((v >> 30) & 1) as byte & 1 == 0) == (v & 0x4000_0000 == 0)
    ensures (v << 1) ^ ((0 as byte) as bv32) == v << 1
  {}

  lemma TwiceClear(v: bv32)
    requires v & 0x4000_0000 == 0
    ensures Twice(v) == (v << 1) ^ 0
  {}

  lemma TwiceSet(v: bv32)
    requires v & 0x4000_0000 != 0
    ensures Twice(v) == (v << 1) ^ POLYNOMIAL
  {}

  lemma ReduceClear(v: bv32, w: Word, x: byte)
    requires w == Word(v) && x & 1 == 0
    ensures Xor(w, Reduction(x)) == Word(v ^ 0)
  {}

  lemma ReduceSet(v: bv32, w: Word, x: byte)
    requires w == Word(v) && x & 1 != 0
    ensures Xor(w, Reduction(x)) == Word(v ^ POLYNOMIAL)
  {}

  lemma ReduceBit(v: bv32, w: Word, x: byte)
    requires w == Word(v << 1) && (x & 1 == 0) == (v & 0x4000_0000 == 0)
    ensures Xor(w, Reduction(x)) == Word(Twice(v))
  {
    if v & 0x4000_0000 == 0 {
      ReduceClear(v << 1, w, x);
      TwiceClear(v);
    } else {
      ReduceSet(v << 1, w, x);
      TwiceSet(v);
    }
  }

  lemma BitwiseStep(v: bv32)
    ensures BITWISE.step(Word(v), 0) == Word(Twice(v))
  {
    BitTest(v);
    ReduceBit(v, ShiftBit(Word(v), 0), TopBit(Word(v)));
  }

  lemma {:induction false} BitwisePush(v: Word, n: nat)
    ensures Push(BITWISE, v, n + 1) == Word(Twice(Push(BITWISE, v, n).bits))
  {
    BitwiseStep(Push(BITWISE, v, n).bits);
  }

  lemma EightPushes(v: bv32)
    ensures Push(BITWISE, Word(v), 8) == Word(Eight(v))
  {
    assert Push(BITWISE, Word(v), 0) == Word(v);
    BitwisePush(Word(v), 0);
    BitwisePush(Word(v), 1);
    BitwisePush(Word(v), 2);
    BitwisePush(Word(v), 3);
    BitwisePush(Word(v), 4);
    BitwisePush(Word(v), 5);
    BitwisePush(Word(v), 6);
    BitwisePush(Word(v), 7);
  }

  // ----- one byte -----

  /** A byte at the top of a value. */
  function High(x: byte): Word { Word((x as bv32) << 23) }

  /** What it leaves behind when it is shifted out: its entry in the reduction table, without the bit that did fit. */
  function LeftOver(x: byte): Word { Xor(Word(TWord(x)), Word((x as bv32) << 31)) }

  const HIGH: Table := x => High(x)
  const LEFT: Table := x => LeftOver(x)

  lemma HighXor(x: byte, y: byte)
    ensures High(x ^ y) == Xor(High(x), High(y))
  {}

  lemma LowestXor(x: byte, y: byte)
    ensures Word(((x ^ y) as bv32) << 31) == Xor(Word((x as bv32) << 31), Word((y as bv32) << 31))
  {}

  lemma LeftXor(x: byte, y: byte)
    requires LinearAt(T_TABLE, XOR, x, y)
    ensures LeftOver(x ^ y) == Xor(LeftOver(x), LeftOver(y))
  {
    LowestXor(x, y);
    XorSwap(Word(TWord(x)), Word(TWord(y)), Word((x as bv32) << 31), Word((y as bv32) << 31));
  }

  lemma BitLeaves(b: byte)
    requires SingleBit(b)
    ensures TWord(b) ^ ((b as bv32) << 31) == Eight((b as bv32) << 23)
  {
    if b == 0x01 {} else if b == 0x02 {} else if b == 0x04 {} else if b == 0x08 {} else if b == 0x10 {} else if b == 0x20 {}
    else if b == 0x40 {}
  }

  lemma BitLeft(b: byte)
    requires SingleBit(b)
    ensures AgesAt(BITWISE, LEFT, HIGH, 8, b)
  {
    BitLeaves(b);
    EightPushes((b as bv32) << 23);
  }

  /** Shifting a byte out bit by bit leaves what the reduction table says. */
  lemma ByteLeft(x: byte)
    ensures LeftOver(x) == Push(BITWISE, High(x), 8)
  {
    TIsLinear();
    BitwiseIsLawful();
    forall x: byte, y: byte ensures LinearAt(LEFT, XOR, x, y) {
      assert LinearAt(T_TABLE, XOR, x, y);
      LeftXor(x, y);
    }
    forall x: byte, y: byte ensures LinearAt(HIGH, XOR, x, y) { HighXor(x, y); }
    forall b: byte | SingleBit(b) ensures AgesAt(BITWISE, LEFT, HIGH, 8, b) { BitLeft(b); }
    AgesEverywhere(BITWISE, LEFT, HIGH, 8, x);
  }

  /** Below the top byte nothing is shifted out. */
  lemma EightShifts(v: bv32)
    requires v < 0x80_0000
    ensures Eight(v) == v << 8
  {}

  /** `p` is the byte `t` above `r`. */
  predicate Cut(p: bv32, t: byte, r: bv32) {
    r < 0x80_0000 && p == ((t as bv32) << 23) ^ r && (p << 8) | 0 == ((t as bv32) << 31) ^ (r << 8) && t == ((p >> 23) & 0xff) as byte
  }

  lemma CutOff(p: bv32)
    requires p < 0x8000_0000
    ensures Cut(p, ((p >> 23) & 0xff) as byte, p & 0x7f_ffff)
  {}

  lemma Cuts(p: bv32) returns (t: byte, r: bv32)
    requires p < 0x8000_0000
    ensures Cut(p, t, r)
  {
    CutOff(p);
    return ((p >> 23) & 0xff) as byte, p & 0x7f_ffff;
  }

  lemma Regroup(a: Word, b: Word, c: Word)
    ensures Xor(Xor(a, b), c) == Xor(Xor(b, c), a)
  {}

  const RABIN: Machine<Word> := Fingerprinter(T_TABLE)

  /** `v` is the byte `t` above `r`, and this is what a shift makes of the two. */
  predicate Sliced(v: Word, t: byte, r: bv32) {
    && Top(v) == t && r < 0x80_0000 && v == Xor(High(t), Word(r))
    && Shift(v, 0) == Xor(Word((t as bv32) << 31), Word(r << 8))
  }

  lemma SliceHigh(p: bv32, t: byte, r: bv32)
    requires p == ((t as bv32) << 23) ^ r
    ensures Word(p) == Xor(High(t), Word(r))
  {}

  lemma SliceShift(p: bv32, t: byte, r: bv32)
    requires (p << 8) | 0 == ((t as bv32) << 31) ^ (r << 8)
    ensures Shift(Word(p), 0) == Xor(Word((t as bv32) << 31), Word(r << 8))
  {}

  lemma Slice(p: bv32, t: byte, r: bv32)
    requires Cut(p, t, r)
    ensures Sliced(Word(p), t, r)
  {
    SliceHigh(p, t, r);
    SliceShift(p, t, r);
  }

  lemma StepSliced(v: Word, t: byte, r: bv32)
    requires Sliced(v, t, r)
    ensures RABIN.step(v, 0) == Push(BITWISE, v, 8)
  {
    BitwiseIsLawful();
    PushXor(BITWISE, High(t), Word(r), 8);
    ByteLeft(t);
    EightPushes(r);
    EightShifts(r);
    Regroup(Word(TWord(t)), Word((t as bv32) << 31), Word(r << 8));
  }

  /** A zero byte entering is eight zero bits entering. */
  lemma StepIsEight(p: bv32)
    requires p < 0x8000_0000
    ensures RABIN.step(Word(p), 0) == Push(BITWISE, Word(p), 8)
  {
    var t, r := Cuts(p);
    Slice(p, t, r);
    StepSliced(Word(p), t, r);
  }

  lemma {:induction false} PushIsBits(v: Word, n: nat)
    requires Fits(v) && Reduces(T_TABLE)
    ensures Push(RABIN, v, n) == Push(BITWISE, v, 8 * n)
    decreases n
  {
    if n > 0 {
      PushIsBits(v, n - 1);
      PushFits(T_TABLE, v, n - 1);
      StepIsEight(Push(RABIN, v, n - 1).bits);
      PushMore(BITWISE, v, 8 * (n - 1), 8);
    }
  }

  // ----- the removal table holds aged bytes -----

  /** The lowest bit, and what each of fifteen zero bytes makes of it. */
  const POWERS: seq<bv32> := [
    0x00000001, 0x00000100, 0x00010000, 0x01000000, 0x56b369a2, 0x4f3fc4b7, 0x177eae38, 0x13a7c5b5,
    0x6deb334e, 0x0d19fd2c, 0x5bcd14dc, 0x7372826b, 0x1cb666be, 0x38476707, 0x0d97dcac, 0x7eb5200d ]

  lemma PowerNext(j: nat)
    requires j < 15
    ensures |POWERS| == 16 && Eight(POWERS[j]) == POWERS[j + 1]
  {
    if j == 0 {} else if j == 1 {} else if j == 2 {} else if j == 3 {} else if j == 4 {} else if j == 5 {} else if j == 6 {}
    else if j == 7 {} else if j == 8 {} else if j == 9 {} else if j == 10 {} else if j == 11 {} else if j == 12 {} else if j == 13 {}
  }

  lemma PowerPush(j: nat)
    requires j < 15
    ensures |POWERS| == 16 && Push(BITWISE, Word(POWERS[j]), 8) == Word(POWERS[j + 1])
  {
    PowerNext(j);
    EightPushes(POWERS[j]);
  }

  lemma Powers()
    ensures |POWERS| == 16 && Push(BITWISE, Word(POWERS[0]), 120) == Word(POWERS[15])
  {
    var s := seq(16, i requires 0 <= i < 16 => Word(POWERS[i]));
    forall j | 0 < j < |s| ensures s[j] == Push(BITWISE, s[j - 1], 8) {
      PowerPush(j - 1);
    }
    PushStages(BITWISE, s, 8, 15);
  }

  /** A byte as it stands just after entering an empty window. */
  function Into(x: byte): Word { Word(x as bv32) }

  const INTO: Table := x => Into(x)

  lemma IntoIsLinear()
    ensures Linear(INTO, XOR)
  {
    forall x: byte, y: byte ensures LinearAt(INTO, XOR, x, y) { IntoXor(x, y); }
  }

  lemma IntoXor(x: byte, y: byte)
    ensures Into(x ^ y) == Xor(Into(x), Into(y))
  {}

  lemma EntersAsItself(x: byte)
    ensures RABIN.step(RABIN.zero, x) == INTO(x)
  {
    assert TWord(0) == 0;
  }

  /** From one single bit to the next, both as it enters and as it is removed. */
  lemma NextBit(b: byte)
    requires SingleBit(b) && b != 0x80
    ensures UWord(b << 1) == Twice(UWord(b)) && (b << 1) as bv32 == Twice(b as bv32)
  {
    if b == 0x01 {} else if b == 0x02 {} else if b == 0x04 {} else if b == 0x08 {} else if b == 0x10 {} else if b == 0x20 {}
  }

  lemma NextAges(b: byte)
    requires SingleBit(b) && b != 0x80 && U_TABLE(b) == Push(BITWISE, INTO(b), 120)
    ensures U_TABLE(b << 1) == Push(BITWISE, INTO(b << 1), 120)
  {
    NextBit(b);
    BitwiseStep(b as bv32);
    BitwiseStep(UWord(b));
    assert INTO(b << 1) == Push(BITWISE, INTO(b), 1);
    PushMore(BITWISE, INTO(b), 1, 120);
  }

  lemma FirstAges()
    ensures U_TABLE(0x01) == Push(BITWISE, INTO(0x01), 120)
  {
    Powers();
  }

  lemma BitsAge()
    ensures forall b: byte :: SingleBit(b) ==> U_TABLE(b) == Push(BITWISE, INTO(b), 120)
  {
    FirstAges();
    NextAges(0x01);
    NextAges(0x02);
    NextAges(0x04);
    NextAges(0x08);
    NextAges(0x10);
    NextAges(0x20);
    NextAges(0x40);
  }

  lemma IntoFits(x: byte)
    ensures Fits(INTO(x))
  {}

  /** Every entry of the removal table is its index, pushed through the fifteen bytes that follow. */
  lemma UIsAged(x: byte)
    ensures U_TABLE(x) == Push(RABIN, RABIN.step(RABIN.zero, x), 15)
  {
    TIsLinear();
    UIsLinear();
    IntoIsLinear();
    RegisterIsRegular();
    ReducingIsLawful(REGISTER, T_TABLE);
    BitsAge();
    TReduces();
    forall b: byte | SingleBit(b) ensures AgesAt(RABIN, U_TABLE, INTO, 15, b) {
      IntoFits(b);
      PushIsBits(INTO(b), 15);
    }
    AgesEverywhere(RABIN, U_TABLE, INTO, 15, x);
    EntersAsItself(x);
  }

  // ----- the fingerprint -----

  const WINDOW: nat := 16

  /** A reduction table and a removal table. */
  datatype Tables = Tables(reduce: Table, remove: Table)

  const STANDARD: Tables := Tables(T_TABLE, U_TABLE)

  function Enter(tb: Tables, v: Word, b: byte): Word {
    Fingerprinter(tb.reduce).step(v, b)
  }

  /** The fingerprint of a run of bytes, computed from scratch. */
  function Fingerprint(tb: Tables, w: seq<byte>): Word {
    Fold(Fingerprinter(tb.reduce), ZERO, w)
  }

  /** One slide of the window: the oldest byte is cancelled, a new one enters. */
  function Roll(tb: Tables, v: Word, oldest: byte, newest: byte): Word {
    Enter(tb, Xor(v, tb.remove(oldest)), newest)
  }

  /** From the fingerprint of a window, one roll gives the fingerprint of the next window. */
  predicate RollsAt(tb: Tables, w: seq<byte>, newest: byte)
    requires |w| == WINDOW
  {
    Roll(tb, Fingerprint(tb, w), w[0], newest) == Fingerprint(tb, w[1..] + [newest])
  }

  /** What the encoder relies on: rolling is exact, and no value outgrows the table index. */
  ghost predicate Sound(tb: Tables) {
    && (forall w: seq<byte>, b: byte :: |w| == WINDOW ==> RollsAt(tb, w, b))
    && Reduces(tb.reduce)
    && (forall x: byte :: Fits(tb.remove(x)))
  }

  lemma EnterFits(tb: Tables, v: Word, b: byte)
    requires Sound(tb) && Fits(v)
    ensures Fits(Enter(tb, v, b))
  {
    StepFits(tb.reduce, v, b);
  }

  lemma {:induction false} FingerprintFits(tb: Tables, w: seq<byte>)
    requires Reduces(tb.reduce)
    ensures Fits(Fingerprint(tb, w)) && Indexes(Fingerprint(tb, w))
    decreases |w|
  {
    if w != [] {
      FingerprintFits(tb, w[..|w| - 1]);
      StepFits(tb.reduce, Fingerprint(tb, w[..|w| - 1]), w[|w| - 1]);
    }
    TopIsShift(Fingerprint(tb, w));
  }

  lemma XorFits(v: Word, w: Word)
    requires Fits(v) && Fits(w)
    ensures Fits(Xor(v, w))
  {}

  lemma UFits(x: byte)
    ensures Fits(U_TABLE(x))
  {
    TReduces();
    UIsAged(x);
    EntersAsItself(x);
    PushFits(T_TABLE, INTO(x), 15);
  }

  lemma {:induction false} PushFits(t: Table, v: Word, n: nat)
    requires Fits(v) && Reduces(t)
    ensures Fits(Push(Fingerprinter(t), v, n))
    decreases n
  {
    if n > 0 {
      PushFits(t, v, n - 1);
      StepFits(t, Push(Fingerprinter(t), v, n - 1), 0);
    }
  }

  /** The tables in use are sound. */
  lemma StandardIsSound()
    ensures Sound(STANDARD)
  {
    TReduces();
    RegisterIsRegular();
    ReducingIsLawful(REGISTER, T_TABLE);
    forall w: seq<byte>, b: byte | |w| == WINDOW ensures RollsAt(STANDARD, w, b) {
      UIsAged(w[0]);
      SlideIsFold(RABIN, w, b);
    }
    forall x: byte ensures Fits(STANDARD.remove(x)) { UFits(x); }
  }

  // ----- the fingerprint is a remainder -----

  /** The lowest `n` bits of a byte, the highest of them first. */
  function BitsOf(x: byte, n: nat): (r: seq<byte>)
    ensures |r| == n
  {
    if n == 0 then [] else BitsOf(x >> 1, n - 1) + [x & 1]
  }

  /** There are no other bits. */
  predicate HasBits(x: byte, n: nat) { if n == 0 then x == 0 else HasBits(x >> 1, n - 1) }

  lemma HalfBits(x: byte, p: bv32)
    requires p == (x >> 1) as bv32
    ensures p & 0x4000_0000 == 0 && (p << 1) ^ ((x & 1) as bv32) == x as bv32 && ((p >> 30) & 1) as byte & 1 == 0
  {}

  lemma NothingLost(v: Word, x: byte)
    requires x & 1 == 0
    ensures Xor(v, Reduction(x)) == v
  {}

  /** As long as nothing is shifted out, a bit comes in at the bottom. */
  lemma BitEnters(x: byte)
    ensures BITWISE.step(Into(x >> 1), x & 1) == Into(x)
  {
    var v := Into(x >> 1);
    HalfBits(x, (x >> 1) as bv32);
    NothingLost(ShiftBit(v, x & 1), TopBit(v));
  }

  lemma EightBits(x: byte)
    ensures HasBits(x, 8)
  {
    assert ((((((x >> 1) >> 1) >> 1) >> 1) >> 1) >> 1) >> 1 <= 1;
    assert HasBits((((((x >> 1) >> 1) >> 1) >> 1) >> 1) >> 1, 2);
    assert HasBits(((((x >> 1) >> 1) >> 1) >> 1), 4);
    assert HasBits(((x >> 1) >> 1), 6);
  }

  /** The bits of a byte, entering one by one, make up the byte. */
  lemma {:induction false} BitsMakeByte(x: byte, n: nat)
    requires HasBits(x, n)
    ensures Fold(BITWISE, ZERO, BitsOf(x, n)) == Into(x)
    decreases n
  {
    if n > 0 {
      BitsMakeByte(x >> 1, n - 1);
      BitEnters(x);
    }
  }

  lemma StepEnters(v: Word, b: byte)
    requires Lawful(RABIN)
    ensures RABIN.step(v, b) == Xor(Into(b), RABIN.step(v, 0))
  {
    assert StepLinearAt(RABIN, ZERO, v, b) && ZeroAt(RABIN, v);
    EntersAsItself(b);
  }

  /** A byte entering through the table is its eight bits entering one by one. */
  lemma ByteIsBits(v: Word, b: byte)
    requires Fits(v)
    ensures RABIN.step(v, b) == Fold(BITWISE, v, BitsOf(b, 8))
  {
    TIsLinear();
    RegisterIsRegular();
    ReducingIsLawful(REGISTER, T_TABLE);
    StepEnters(v, b);
    StepIsEight(v.bits);
    EightBits(b);
    BitsMakeByte(b, 8);
    BitwiseIsLawful();
    FoldXor(BITWISE, ZERO, v, BitsOf(b, 8));
    assert ZeroAt(BITWISE, v);
  }

  /** The bits of a text. */
  function Spelled(w: seq<byte>): seq<byte> {
    if w == [] then [] else Spelled(w[..|w| - 1]) + BitsOf(w[|w| - 1], 8)
  }

  /** The fingerprint is the remainder of the text, read as a polynomial over the bits, by the polynomial of the tables. */
  lemma {:induction false} FingerprintIsRemainder(w: seq<byte>)
    ensures Fingerprint(STANDARD, w) == Fold(BITWISE, ZERO, Spelled(w))
    decreases |w|
  {
    if w != [] {
      var front := w[..|w| - 1];
      TReduces();
      FingerprintFits(STANDARD, front);
      FingerprintIsRemainder(front);
      ByteIsBits(Fingerprint(STANDARD, front), w[|w| - 1]);
      FoldConcat(BITWISE, ZERO, Spelled(front), BitsOf(w[|w| - 1], 8));
    }
  }
}
