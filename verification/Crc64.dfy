/**
 The checksum of dump files (crc64.c): table-driven, one octet at a time, and what a plain
 bit-at-a-time division says it is.
 */
module Crc64 {
  import opened Bytes

  const POLY: bv64 := 0x95ac9329ac4bc9b5

  // The table, sixteen entries a row ------------------------------------------------------------

  const ROW_0: seq<bv64> := [
    0x0000000000000000, 0x7ad870c830358979, 0xf5b0e190606b12f2, 0x8f689158505e9b8b,
    0xc038e5739841b68f, 0xbae095bba8743ff6, 0x358804e3f82aa47d, 0x4f50742bc81f2d04,
    0xab28ecb46814fe75, 0xd1f09c7c5821770c, 0x5e980d24087fec87, 0x24407dec384a65fe,
    0x6b1009c7f05548fa, 0x11c8790fc060c183, 0x9ea0e857903e5a08, 0xe478989fa00bd371]

  const ROW_1: seq<bv64> := [
    0x7d08ff3b88be6f81, 0x07d08ff3b88be6f8, 0x88b81eabe8d57d73, 0xf2606e63d8e0f40a,
    0xbd301a4810ffd90e, 0xc7e86a8020ca5077, 0x4880fbd87094cbfc, 0x32588b1040a14285,
    0xd620138fe0aa91f4, 0xacf86347d09f188d, 0x2390f21f80c18306, 0x594882d7b0f40a7f,
    0x1618f6fc78eb277b, 0x6cc0863448deae02, 0xe3a8176c18803589, 0x997067a428b5bcf0]

  const ROW_2: seq<bv64> := [
    0xfa11fe77117cdf02, 0x80c98ebf2149567b, 0x0fa11fe77117cdf0, 0x75796f2f41224489,
    0x3a291b04893d698d, 0x40f16bccb908e0f4, 0xcf99fa94e9567b7f, 0xb5418a5cd963f206,
    0x513912c379682177, 0x2be1620b495da80e, 0xa489f35319033385, 0xde51839b2936bafc,
    0x9101f7b0e12997f8, 0xebd98778d11c1e81, 0x64b116208142850a, 0x1e6966e8b1770c73]

  const ROW_3: seq<bv64> := [
    0x8719014c99c2b083, 0xfdc17184a9f739fa, 0x72a9e0dcf9a9a271, 0x08719014c99c2b08,
    0x4721e43f0183060c, 0x3df994f731b68f75, 0xb29105af61e814fe, 0xc849756751dd9d87,
    0x2c31edf8f1d64ef6, 0x56e99d30c1e3c78f, 0xd9810c6891bd5c04, 0xa3597ca0a188d57d,
    0xec09088b6997f879, 0x96d1784359a27100, 0x19b9e91b09fcea8b, 0x636199d339c963f2]

  const ROW_4: seq<bv64> := [
    0xdf7adabd7a6e2d6f, 0xa5a2aa754a5ba416, 0x2aca3b2d1a053f9d, 0x50124be52a30b6e4,
    0x1f423fcee22f9be0, 0x659a4f06d21a1299, 0xeaf2de5e82448912, 0x902aae96b271006b,
    0x74523609127ad31a, 0x0e8a46c1224f5a63, 0x81e2d7997211c1e8, 0xfb3aa75142244891,
    0xb46ad37a8a3b6595, 0xceb2a3b2ba0eecec, 0x41da32eaea507767, 0x3b024222da65fe1e]

  const ROW_5: seq<bv64> := [
    0xa2722586f2d042ee, 0xd8aa554ec2e5cb97, 0x57c2c41692bb501c, 0x2d1ab4dea28ed965,
    0x624ac0f56a91f461, 0x1892b03d5aa47d18, 0x97fa21650afae693, 0xed2251ad3acf6fea,
    0x095ac9329ac4bc9b, 0x7382b9faaaf135e2, 0xfcea28a2faafae69, 0x8632586aca9a2710,
    0xc9622c4102850a14, 0xb3ba5c8932b0836d, 0x3cd2cdd162ee18e6, 0x460abd1952db919f]

  const ROW_6: seq<bv64> := [
    0x256b24ca6b12f26d, 0x5fb354025b277b14, 0xd0dbc55a0b79e09f, 0xaa03b5923b4c69e6,
    0xe553c1b9f35344e2, 0x9f8bb171c366cd9b, 0x10e3202993385610, 0x6a3b50e1a30ddf69,
    0x8e43c87e03060c18, 0xf49bb8b633338561, 0x7bf329ee636d1eea, 0x012b592653589793,
    0x4e7b2d0d9b47ba97, 0x34a35dc5ab7233ee, 0xbbcbcc9dfb2ca865, 0xc113bc55cb19211c]

  const ROW_7: seq<bv64> := [
    0x5863dbf1e3ac9dec, 0x22bbab39d3991495, 0xadd33a6183c78f1e, 0xd70b4aa9b3f20667,
    0x985b3e827bed2b63, 0xe2834e4a4bd8a21a, 0x6debdf121b863991, 0x1733afda2bb3b0e8,
    0xf34b37458bb86399, 0x8993478dbb8deae0, 0x06fbd6d5ebd3716b, 0x7c23a61ddbe6f812,
    0x3373d23613f9d516, 0x49aba2fe23cc5c6f, 0xc6c333a67392c7e4, 0xbc1b436e43a74e9d]

  const ROW_8: seq<bv64> := [
    0x95ac9329ac4bc9b5, 0xef74e3e19c7e40cc, 0x601c72b9cc20db47, 0x1ac40271fc15523e,
    0x5594765a340a7f3a, 0x2f4c0692043ff643, 0xa02497ca54616dc8, 0xdafce7026454e4b1,
    0x3e847f9dc45f37c0, 0x445c0f55f46abeb9, 0xcb349e0da4342532, 0xb1eceec59401ac4b,
    0xfebc9aee5c1e814f, 0x8464ea266c2b0836, 0x0b0c7b7e3c7593bd, 0x71d40bb60c401ac4]

  const ROW_9: seq<bv64> := [
    0xe8a46c1224f5a634, 0x927c1cda14c02f4d, 0x1d148d82449eb4c6, 0x67ccfd4a74ab3dbf,
    0x289c8961bcb410bb, 0x5244f9a98c8199c2, 0xdd2c68f1dcdf0249, 0xa7f41839ecea8b30,
    0x438c80a64ce15841, 0x3954f06e7cd4d138, 0xb63c61362c8a4ab3, 0xcce411fe1cbfc3ca,
    0x83b465d5d4a0eece, 0xf96c151de49567b7, 0x76048445b4cbfc3c, 0x0cdcf48d84fe7545]

  const ROW_A: seq<bv64> := [
    0x6fbd6d5ebd3716b7, 0x15651d968d029fce, 0x9a0d8ccedd5c0445, 0xe0d5fc06ed698d3c,
    0xaf85882d2576a038, 0xd55df8e515432941, 0x5a3569bd451db2ca, 0x20ed197575283bb3,
    0xc49581ead523e8c2, 0xbe4df122e51661bb, 0x3125607ab548fa30, 0x4bfd10b2857d7349,
    0x04ad64994d625e4d, 0x7e7514517d57d734, 0xf11d85092d094cbf, 0x8bc5f5c11d3cc5c6]

  const ROW_B: seq<bv64> := [
    0x12b5926535897936, 0x686de2ad05bcf04f, 0xe70573f555e26bc4, 0x9ddd033d65d7e2bd,
    0xd28d7716adc8cfb9, 0xa85507de9dfd46c0, 0x273d9686cda3dd4b, 0x5de5e64efd965432,
    0xb99d7ed15d9d8743, 0xc3450e196da80e3a, 0x4c2d9f413df695b1, 0x36f5ef890dc31cc8,
    0x79a59ba2c5dc31cc, 0x037deb6af5e9b8b5, 0x8c157a32a5b7233e, 0xf6cd0afa9582aa47]

  const ROW_C: seq<bv64> := [
    0x4ad64994d625e4da, 0x300e395ce6106da3, 0xbf66a804b64ef628, 0xc5bed8cc867b7f51,
    0x8aeeace74e645255, 0xf036dc2f7e51db2c, 0x7f5e4d772e0f40a7, 0x05863dbf1e3ac9de,
    0xe1fea520be311aaf, 0x9b26d5e88e0493d6, 0x144e44b0de5a085d, 0x6e963478ee6f8124,
    0x21c640532670ac20, 0x5b1e309b16452559, 0xd476a1c3461bbed2, 0xaeaed10b762e37ab]

  const ROW_D: seq<bv64> := [
    0x37deb6af5e9b8b5b, 0x4d06c6676eae0222, 0xc26e573f3ef099a9, 0xb8b627f70ec510d0,
    0xf7e653dcc6da3dd4, 0x8d3e2314f6efb4ad, 0x0256b24ca6b12f26, 0x788ec2849684a65f,
    0x9cf65a1b368f752e, 0xe62e2ad306bafc57, 0x6946bb8b56e467dc, 0x139ecb4366d1eea5,
    0x5ccebf68aecec3a1, 0x2616cfa09efb4ad8, 0xa97e5ef8cea5d153, 0xd3a62e30fe90582a]

  const ROW_E: seq<bv64> := [
    0xb0c7b7e3c7593bd8, 0xca1fc72bf76cb2a1, 0x45775673a732292a, 0x3faf26bb9707a053,
    0x70ff52905f188d57, 0x0a2722586f2d042e, 0x854fb3003f739fa5, 0xff97c3c80f4616dc,
    0x1bef5b57af4dc5ad, 0x61372b9f9f784cd4, 0xee5fbac7cf26d75f, 0x9487ca0fff135e26,
    0xdbd7be24370c7322, 0xa10fceec0739fa5b, 0x2e675fb4576761d0, 0x54bf2f7c6752e8a9]

  const ROW_F: seq<bv64> := [
    0xcdcf48d84fe75459, 0xb71738107fd2dd20, 0x387fa9482f8c46ab, 0x42a7d9801fb9cfd2,
    0x0df7adabd7a6e2d6, 0x772fdd63e7936baf, 0xf8474c3bb7cdf024, 0x829f3cf387f8795d,
    0x66e7a46c27f3aa2c, 0x1c3fd4a417c62355, 0x935745fc4798b8de, 0xe98f353477ad31a7,
    0xa6df411fbfb21ca3, 0xdc0731d78f8795da, 0x536fa08fdfd90e51, 0x29b7d047efec8728]

  function Row(k: nat): (r: seq<bv64>)
    requires k < 16
    ensures |r| == 16
  {
    match k
    case 0 => ROW_0 case 1 => ROW_1 case 2 => ROW_2 case 3 => ROW_3
    case 4 => ROW_4 case 5 => ROW_5 case 6 => ROW_6 case 7 => ROW_7
    case 8 => ROW_8 case 9 => ROW_9 case 10 => ROW_A case 11 => ROW_B
    case 12 => ROW_C case 13 => ROW_D case 14 => ROW_E case _ => ROW_F
  }

  /** Four bits as an index. */
  function Nibble(x: bv64): (n: nat)
    ensures n < 16
  {
    if x == 0 then 0 else if x == 1 then 1 else if x == 2 then 2 else if x == 3 then 3
    else if x == 4 then 4 else if x == 5 then 5 else if x == 6 then 6 else if x == 7 then 7
    else if x == 8 then 8 else if x == 9 then 9 else if x == 10 then 10 else if x == 11 then 11
    else if x == 12 then 12 else if x == 13 then 13 else if x == 14 then 14 else 15
  }

  /** The entry for an octet. */
  function Table(x: bv64): bv64 {
    Row(Nibble(x >> 4))[Nibble(x & 0xf)]
  }

  // Octets as words, bit by bit ------------------------------------------------------------------

  function Bit(on: bool, mask: bv64): bv64 {
    if on then mask else 0
  }

  function Word(b0: bool, b1: bool, b2: bool, b3: bool, b4: bool, b5: bool, b6: bool, b7: bool): bv64 {
    Bit(b0, 1) | Bit(b1, 2) | Bit(b2, 4) | Bit(b3, 8) | Bit(b4, 16) | Bit(b5, 32) | Bit(b6, 64) | Bit(b7, 128)
  }

  /** An octet in the low bits of a word. */
  function Widen(b: u8): bv64 {
    Word(b % 2 == 1, b / 2 % 2 == 1, b / 4 % 2 == 1, b / 8 % 2 == 1, b / 16 % 2 == 1, b / 32 % 2 == 1,
         b / 64 % 2 == 1, b / 128 == 1)
  }

  lemma WordBits(b0: bool, b1: bool, b2: bool, b3: bool, b4: bool, b5: bool, b6: bool, b7: bool)
    ensures var x := Word(b0, b1, b2, b3, b4, b5, b6, b7);
            && x <= 0xff
            && (x & 1 != 0 <==> b0) && (x & 2 != 0 <==> b1) && (x & 4 != 0 <==> b2) && (x & 8 != 0 <==> b3)
            && (x & 16 != 0 <==> b4) && (x & 32 != 0 <==> b5) && (x & 64 != 0 <==> b6) && (x & 128 != 0 <==> b7)
  {}

  lemma Quotients(a: u8)
    ensures a / 2 / 2 == a / 4 && a / 4 / 2 == a / 8 && a / 8 / 2 == a / 16
    ensures a / 16 / 2 == a / 32 && a / 32 / 2 == a / 64 && a / 64 / 2 == a / 128
  {}

  lemma SameBits(a: u8, b: u8)
    requires a % 2 == b % 2 && a / 2 % 2 == b / 2 % 2 && a / 4 % 2 == b / 4 % 2 && a / 8 % 2 == b / 8 % 2
    requires a / 16 % 2 == b / 16 % 2 && a / 32 % 2 == b / 32 % 2 && a / 64 % 2 == b / 64 % 2 && a / 128 == b / 128
    ensures a == b
  {
    Quotients(a);
    Quotients(b);
  }

  lemma WidenSmall(a: u8)
    ensures Widen(a) <= 0xff
  {
    hide Word;
    WordBits(a % 2 == 1, a / 2 % 2 == 1, a / 4 % 2 == 1, a / 8 % 2 == 1, a / 16 % 2 == 1, a / 32 % 2 == 1,
         a / 64 % 2 == 1, a / 128 == 1);
  }

  lemma WordInjective(a0: bool, a1: bool, a2: bool, a3: bool, a4: bool, a5: bool, a6: bool, a7: bool,
                      b0: bool, b1: bool, b2: bool, b3: bool, b4: bool, b5: bool, b6: bool, b7: bool)
    requires Word(a0, a1, a2, a3, a4, a5, a6, a7) == Word(b0, b1, b2, b3, b4, b5, b6, b7)
    ensures a0 == b0 && a1 == b1 && a2 == b2 && a3 == b3 && a4 == b4 && a5 == b5 && a6 == b6 && a7 == b7
  {
    hide Word;
    WordBits(a0, a1, a2, a3, a4, a5, a6, a7);
    WordBits(b0, b1, b2, b3, b4, b5, b6, b7);
  }

  lemma WidenInjective(a: u8, b: u8)
    ensures Widen(a) == Widen(b) ==> a == b
  {
    hide Word;
    if Widen(a) == Widen(b) {
      WordInjective(a % 2 == 1, a / 2 % 2 == 1, a / 4 % 2 == 1, a / 8 % 2 == 1, a / 16 % 2 == 1, a / 32 % 2 == 1,
        a / 64 % 2 == 1, a / 128 == 1,
        b % 2 == 1, b / 2 % 2 == 1, b / 4 % 2 == 1, b / 8 % 2 == 1, b / 16 % 2 == 1, b / 32 % 2 == 1,
        b / 64 % 2 == 1, b / 128 == 1);
      SameBits(a, b);
    }
  }

  // The division, bit by bit ---------------------------------------------------------------------

  function Xor(x: bv64, y: bv64): bv64 { x ^ y }

  lemma Zero(x: bv64)
    ensures Xor(0, x) == x && Xor(x, 0) == x && Xor(x, x) == 0
  {}

  function LowHalf(x: bv64): bv64 { x & 0xffff_ffff }

  function HighHalf(x: bv64): bv64 { x >> 32 }

  lemma AssocLow(a: bv64, b: bv64, c: bv64)
    ensures LowHalf(Xor(Xor(a, b), c)) == LowHalf(Xor(a, Xor(b, c)))
  {}

  lemma HighSum(a: bv64, b: bv64)
    ensures HighHalf(Xor(a, b)) == Xor(HighHalf(a), HighHalf(b))
    ensures LowHalf(HighHalf(a)) == HighHalf(a)
  {}

  lemma AssocHigh(a: bv64, b: bv64, c: bv64)
    ensures HighHalf(Xor(Xor(a, b), c)) == HighHalf(Xor(a, Xor(b, c)))
  {
    hide Xor, LowHalf, HighHalf;
    HighSum(a, b);
    HighSum(b, c);
    HighSum(Xor(a, b), c);
    HighSum(a, Xor(b, c));
    AssocLow(HighHalf(a), HighHalf(b), HighHalf(c));
    HighSum(Xor(Xor(a, b), c), a);
    HighSum(Xor(a, Xor(b, c)), a);
  }

  lemma SameHalves(a: bv64, b: bv64)
    requires LowHalf(a) == LowHalf(b) && HighHalf(a) == HighHalf(b)
    ensures a == b
  {}

  lemma Assoc(a: bv64, b: bv64, c: bv64)
    ensures Xor(Xor(a, b), c) == Xor(a, Xor(b, c))
  {
    hide Xor, LowHalf, HighHalf;
    AssocLow(a, b, c);
    AssocHigh(a, b, c);
    SameHalves(Xor(Xor(a, b), c), Xor(a, Xor(b, c)));
  }

  lemma Comm(a: bv64, b: bv64)
    ensures Xor(a, b) == Xor(b, a)
  {}

  lemma Pairs(a: bv64, b: bv64, x: bv64, y: bv64)
    ensures Xor(Xor(a, x), Xor(b, y)) == Xor(Xor(a, b), Xor(x, y))
  {
    hide Xor;
    Assoc(a, x, Xor(b, y));
    Assoc(x, b, y);
    Comm(x, b);
    Assoc(b, x, y);
    Assoc(a, b, Xor(x, y));
  }

  function Step(x: bv64): bv64 {
    if x & 1 == 1 then (x >> 1) ^ POLY else x >> 1
  }

  function Step8(x: bv64): bv64 {
    Step(Step(Step(Step(Step(Step(Step(Step(x))))))))
  }

  predicate Odd(x: bv64) { x & 1 == 1 }

  function Half(x: bv64): bv64 { x >> 1 }

  function Carry(odd: bool): bv64 { if odd then POLY else 0 }

  lemma StepParts(x: bv64)
    ensures Step(x) == Xor(Half(x), Carry(Odd(x)))
  {
    Zero(x >> 1);
    if x & 1 == 1 {} else {}
  }

  lemma SumParts(x: bv64, y: bv64)
    ensures Half(Xor(x, y)) == Xor(Half(x), Half(y))
    ensures Odd(Xor(x, y)) <==> Odd(x) != Odd(y)
  {}

  lemma CarrySum(a: bool, b: bool)
    ensures Carry(a != b) == Xor(Carry(a), Carry(b))
  {}

  lemma StepLinear(x: bv64, y: bv64)
    ensures Step(Xor(x, y)) == Xor(Step(x), Step(y))
  {
    hide Step, Xor, Half, Odd, Carry;
    StepParts(x);
    StepParts(y);
    StepParts(Xor(x, y));
    SumParts(x, y);
    CarrySum(Odd(x), Odd(y));
    Pairs(Half(x), Half(y), Carry(Odd(x)), Carry(Odd(y)));
  }

  /** The top bit of the polynomial is set, so a step can be undone. */
  lemma StepInjective(x: bv64, y: bv64)
    ensures Step(x) == Step(y) ==> x == y
  {}

  lemma Step8Linear(x: bv64, y: bv64)
    ensures Step8(Xor(x, y)) == Xor(Step8(x), Step8(y))
  {
    hide Step, Xor;
    var x1, y1 := Step(x), Step(y);
    var x2, y2 := Step(x1), Step(y1);
    var x3, y3 := Step(x2), Step(y2);
    var x4, y4 := Step(x3), Step(y3);
    var x5, y5 := Step(x4), Step(y4);
    var x6, y6 := Step(x5), Step(y5);
    StepLinear(x, y);
    StepLinear(x1, y1);
    StepLinear(x2, y2);
    StepLinear(x3, y3);
    StepLinear(x4, y4);
    StepLinear(x5, y5);
    StepLinear(x6, y6);
    StepLinear(Step(x6), Step(y6));
  }

  lemma Step8Injective(x: bv64, y: bv64)
    ensures Step8(x) == Step8(y) ==> x == y
  {
    hide Step;
    var x1, y1 := Step(x), Step(y);
    var x2, y2 := Step(x1), Step(y1);
    var x3, y3 := Step(x2), Step(y2);
    var x4, y4 := Step(x3), Step(y3);
    var x5, y5 := Step(x4), Step(y4);
    var x6, y6 := Step(x5), Step(y5);
    StepInjective(x, y);
    StepInjective(x1, y1);
    StepInjective(x2, y2);
    StepInjective(x3, y3);
    StepInjective(x4, y4);
    StepInjective(x5, y5);
    StepInjective(x6, y6);
    StepInjective(Step(x6), Step(y6));
  }

  /** Eight steps merely shift a word whose low octet is zero. */
  lemma Step8Shifts(x: bv64)
    requires x & 0xff == 0
    ensures Step8(x) == x >> 8
  {}

  // The table is the division of each octet ------------------------------------------------------

  lemma HighBasis()
    ensures Step8(128) == ROW_8[0] && Step8(64) == ROW_4[0] && Step8(32) == ROW_2[0] && Step8(16) == ROW_1[0]
    ensures Step8(0) == ROW_0[0]
  {
    assert Step(0x95ac9329ac4bc9b5) == 0xdf7adabd7a6e2d6f;
    assert Step(0xdf7adabd7a6e2d6f) == 0xfa11fe77117cdf02;
    assert Step(0xfa11fe77117cdf02) == 0x7d08ff3b88be6f81;
  }

  lemma LowBasis()
    ensures Step8(8) == 0xab28ecb46814fe75 && Step8(4) == 0xc038e5739841b68f
    ensures Step8(2) == 0xf5b0e190606b12f2 && Step8(1) == 0x7ad870c830358979
  {
    assert Step(0x95ac9329ac4bc9b5) == 0xdf7adabd7a6e2d6f;
    assert Step(0xdf7adabd7a6e2d6f) == 0xfa11fe77117cdf02;
    assert Step(0xfa11fe77117cdf02) == 0x7d08ff3b88be6f81;
    assert Step(0x7d08ff3b88be6f81) == 0xab28ecb46814fe75;
    assert Step(0xab28ecb46814fe75) == 0xc038e5739841b68f;
    assert Step(0xc038e5739841b68f) == 0xf5b0e190606b12f2;
    assert Step(0xf5b0e190606b12f2) == 0x7ad870c830358979;
  }

  /** All sums of four words, each at the number that tells which of them are in it. */
  function Sums(a: bv64, b: bv64, c: bv64, d: bv64): seq<bv64> {
    [0, a, b, Xor(b, a),
     c, Xor(c, a), Xor(c, b), Xor(c, Xor(b, a)),
     d, Xor(d, a), Xor(d, b), Xor(d, Xor(b, a)),
     Xor(d, c), Xor(d, Xor(c, a)), Xor(d, Xor(c, b)), Xor(d, Xor(c, Xor(b, a)))]
  }

  lemma LowSums()
    ensures ROW_0 == Sums(Step8(1), Step8(2), Step8(4), Step8(8))
  {
    hide Step8;
    LowBasis();
  }

  /** The first entries of the rows. */
  function Firsts(): seq<bv64> {
    [ROW_0[0], ROW_1[0], ROW_2[0], ROW_3[0], ROW_4[0], ROW_5[0], ROW_6[0], ROW_7[0],
     ROW_8[0], ROW_9[0], ROW_A[0], ROW_B[0], ROW_C[0], ROW_D[0], ROW_E[0], ROW_F[0]]
  }

  lemma HighSums()
    ensures Firsts() == Sums(Step8(16), Step8(32), Step8(64), Step8(128))
  {
    hide Step8;
    HighBasis();
  }

  function At(x: bv64, high: bool): bv64 { if high then x << 4 else x }

  lemma AtZero(high: bool)
    ensures Step8(At(0, high)) == 0
  {}

  lemma AtSum(x: bv64, y: bv64, high: bool)
    ensures At(Xor(x, y), high) == Xor(At(x, high), At(y, high))
  {}

  lemma Linear(x: bv64, y: bv64, high: bool)
    ensures Step8(At(Xor(x, y), high)) == Xor(Step8(At(x, high)), Step8(At(y, high)))
  {
    hide Step8, At, Xor;
    AtSum(x, y, high);
    Step8Linear(At(x, high), At(y, high));
  }

  /** Sixteen values, each mapped. */
  function Mapped<T>(f: T -> T, s: seq<T>): seq<T>
    requires |s| == 16
  {
    [f(s[0]), f(s[1]), f(s[2]), f(s[3]),
     f(s[4]), f(s[5]), f(s[6]), f(s[7]),
     f(s[8]), f(s[9]), f(s[10]), f(s[11]),
     f(s[12]), f(s[13]), f(s[14]), f(s[15])]
  }

  lemma MappedAt<T>(f: T -> T, s: seq<T>, n: nat)
    requires |s| == 16 && n < 16
    ensures Mapped(f, s)[n] == f(s[n])
  {}

  const DIGITS: seq<bv64> := [0, 1, 2, 3, 4, 5, 6, 7, 8, 9, 10, 11, 12, 13, 14, 15]

  function Divide(high: bool): bv64 -> bv64 { x => Step8(At(x, high)) }

  /** The four-bit words, each divided. */
  function Entries(high: bool): seq<bv64> {
    [Step8(At(0, high)), Step8(At(1, high)), Step8(At(2, high)), Step8(At(3, high)),
     Step8(At(4, high)), Step8(At(5, high)), Step8(At(6, high)), Step8(At(7, high)),
     Step8(At(8, high)), Step8(At(9, high)), Step8(At(10, high)), Step8(At(11, high)),
     Step8(At(12, high)), Step8(At(13, high)), Step8(At(14, high)), Step8(At(15, high))]
  }

  lemma EntriesAreSums(high: bool)
    ensures Entries(high) == Sums(Step8(At(1, high)), Step8(At(2, high)), Step8(At(4, high)), Step8(At(8, high)))
  {
    hide Step8, At;
    AtZero(high);
    Linear(2, 1, high);
    Linear(4, 1, high);
    Linear(4, 2, high);
    Linear(4, 3, high);
    Linear(8, 1, high);
    Linear(8, 2, high);
    Linear(8, 3, high);
    Linear(8, 4, high);
    Linear(8, 5, high);
    Linear(8, 6, high);
    Linear(8, 7, high);
  }

  lemma DigitOfNibble(x: bv64)
    requires x <= 0xf
    ensures DIGITS[Nibble(x)] == x
  {}

  lemma EntriesMapped(high: bool)
    ensures Entries(high) == Mapped(Divide(high), DIGITS)
  {
    hide Step8, At;
  }

  lemma EntryAt(x: bv64, high: bool)
    requires x <= 0xf
    ensures Entries(high)[Nibble(x)] == Step8(At(x, high))
  {
    hide Step8, At, Nibble, Mapped, Entries;
    DigitOfNibble(x);
    EntriesMapped(high);
    MappedAt(Divide(high), DIGITS, Nibble(x));
  }

  lemma LowEntries(x: bv64)
    requires x <= 0xf
    ensures Row(0)[Nibble(x)] == Step8(x)
  {
    hide Step8, Sums, Nibble, Entries;
    LowSums();
    EntriesAreSums(false);
    EntryAt(x, false);
  }

  lemma FirstAt(k: nat)
    requires k < 16
    ensures Row(k)[0] == Firsts()[k]
  {}

  lemma HighEntries(x: bv64)
    requires x <= 0xf
    ensures Row(Nibble(x))[0] == Step8(x << 4)
  {
    hide Step8, Sums, Nibble, Entries, Firsts, Row;
    HighSums();
    EntriesAreSums(true);
    EntryAt(x, true);
    FirstAt(Nibble(x));
  }

  /** The first row with `high` added to every entry. */
  function Shifted(first: seq<bv64>, high: bv64): seq<bv64>
    requires |first| == 16
  {
    [Xor(high, first[0]), Xor(high, first[1]), Xor(high, first[2]), Xor(high, first[3]),
     Xor(high, first[4]), Xor(high, first[5]), Xor(high, first[6]), Xor(high, first[7]),
     Xor(high, first[8]), Xor(high, first[9]), Xor(high, first[10]), Xor(high, first[11]),
     Xor(high, first[12]), Xor(high, first[13]), Xor(high, first[14]), Xor(high, first[15])]
  }

  lemma RowsShifted0()
    ensures ROW_1 == Shifted(ROW_0, ROW_1[0])
    ensures ROW_2 == Shifted(ROW_0, ROW_2[0])
    ensures ROW_3 == Shifted(ROW_0, ROW_3[0])
    ensures ROW_4 == Shifted(ROW_0, ROW_4[0])
    ensures ROW_5 == Shifted(ROW_0, ROW_5[0])
    ensures ROW_6 == Shifted(ROW_0, ROW_6[0])
    ensures ROW_7 == Shifted(ROW_0, ROW_7[0])
  {}

  lemma RowsShifted1()
    ensures ROW_8 == Shifted(ROW_0, ROW_8[0])
    ensures ROW_9 == Shifted(ROW_0, ROW_9[0])
    ensures ROW_A == Shifted(ROW_0, ROW_A[0])
    ensures ROW_B == Shifted(ROW_0, ROW_B[0])
    ensures ROW_C == Shifted(ROW_0, ROW_C[0])
    ensures ROW_D == Shifted(ROW_0, ROW_D[0])
    ensures ROW_E == Shifted(ROW_0, ROW_E[0])
    ensures ROW_F == Shifted(ROW_0, ROW_F[0])
  {}

  function Adding(high: bv64): bv64 -> bv64 { x => Xor(high, x) }

  lemma ShiftedMapped(first: seq<bv64>, high: bv64)
    requires |first| == 16
    ensures Shifted(first, high) == Mapped(Adding(high), first)
  {
    hide Xor;
  }

  lemma SumAt(row: seq<bv64>, first: seq<bv64>, j: nat)
    requires |row| == |first| == 16 && row == Shifted(first, row[0]) && j < 16
    ensures row[j] == Xor(row[0], first[j])
  {
    hide Xor, Mapped, Shifted;
    ShiftedMapped(first, row[0]);
    MappedAt(Adding(row[0]), first, j);
  }

  lemma RowIsSum(k: nat)
    requires 0 < k < 16
    ensures Row(k) == Shifted(ROW_0, Row(k)[0])
  {
    hide Shifted;
    RowsShifted0();
    RowsShifted1();
  }

  lemma FirstRow(j: nat)
    requires j < 16
    ensures Row(0)[j] == Xor(Row(0)[0], Row(0)[j])
  {
    Zero(Row(0)[j]);
    hide Xor;
  }

  lemma RowSum(k: nat, j: nat)
    requires k < 16 && j < 16
    ensures Row(k)[j] == Xor(Row(k)[0], Row(0)[j])
  {
    if k == 0 {
      FirstRow(j);
    } else {
      RowIsSum(k);
      assert Row(0) == ROW_0;
      hide Xor, Row;
      SumAt(Row(k), Row(0), j);
    }
  }

  lemma Halves(x: bv64)
    requires x <= 0xff
    ensures Xor((x >> 4) << 4, x & 0xf) == x && x >> 4 <= 0xf && x & 0xf <= 0xf
  {}

  lemma TableDivides(x: bv64)
    requires x <= 0xff
    ensures Table(x) == Step8(x)
  {
    hide Step8, Xor, Row, Nibble;
    var k, j := Nibble(x >> 4), Nibble(x & 0xf);
    RowSum(k, j);
    LowEntries(x & 0xf);
    HighEntries(x >> 4);
    Step8Linear((x >> 4) << 4, x & 0xf);
    Halves(x);
    assert Row(k)[j] == Xor(Row(k)[0], Row(0)[j]);
  }

  // The checksum of a stream ---------------------------------------------------------------------

  function Update(c: bv64, b: u8): bv64 {
    Table((c ^ Widen(b)) & 0xff) ^ (c >> 8)
  }

  function Crc(c: bv64, s: bytes): bv64
    decreases |s|
  {
    if s == [] then c else Crc(Update(c, s[0]), s[1..])
  }

  lemma OctetPart(c: bv64, w: bv64)
    requires w <= 0xff
    ensures var low := (c ^ w) & 0xff; var high := (c >> 8) << 8;
            low <= 0xff && Xor(low, high) == Xor(c, w) && high & 0xff == 0 && high >> 8 == c >> 8
  {}

  /** One table look-up divides by eight bits at once. */
  lemma UpdateDivides(c: bv64, b: u8)
    ensures Update(c, b) == Step8(Xor(c, Widen(b)))
  {
    hide Step8, Table, Widen;
    WidenSmall(b);
    var low := (c ^ Widen(b)) & 0xff;
    var high := (c >> 8) << 8;
    OctetPart(c, Widen(b));
    TableDivides(low);
    Step8Shifts(high);
    Step8Linear(low, high);
  }

  /** Chunks do not matter. */
  lemma {:induction false} CrcAppend(c: bv64, a: bytes, b: bytes)
    ensures Crc(c, a + b) == Crc(Crc(c, a), b)
    decreases |a|
  {
    hide Update;
    if a == [] {
      assert a + b == b;
    } else {
      assert (a + b)[1..] == a[1..] + b;
      CrcAppend(Update(c, a[0]), a[1..], b);
    }
  }

  lemma XorInjective(c: bv64, d: bv64, w: bv64)
    ensures Xor(c, w) == Xor(d, w) ==> c == d
  {}

  /** Equal octets after a difference never hide it. */
  lemma {:induction false} CrcInjective(c: bv64, d: bv64, s: bytes)
    ensures Crc(c, s) == Crc(d, s) ==> c == d
    decreases |s|
  {
    hide Step8, Update, Xor, Widen;
    if s != [] && Crc(c, s) == Crc(d, s) {
      CrcInjective(Update(c, s[0]), Update(d, s[0]), s[1..]);
      UpdateDivides(c, s[0]);
      UpdateDivides(d, s[0]);
      Step8Injective(Xor(c, Widen(s[0])), Xor(d, Widen(s[0])));
      XorInjective(c, d, Widen(s[0]));
    }
  }

  // Differences within eight octets ---------------------------------------------------------------

  function Up(x: bv64): bv64 { x << 8 }

  /** A further octet below the others. */
  function Below(w: bv64, x: bv64): bv64 { Xor(w, Up(x)) }

  /** Up to eight octets as one little-endian word. */
  function Window(s: bytes): bv64
    decreases |s|
  {
    if s == [] then 0 else Below(Widen(s[0]), Window(s[1..]))
  }

  function Wider(m: bv64): bv64 { (m << 8) | 0xff }

  /** The low octets of a word. */
  function Mask(n: nat): bv64 {
    if n == 0 then 0 else Wider(Mask(n - 1))
  }

  predicate Fits(x: bv64, m: bv64) { x & m == x }

  lemma SumFits(x: bv64, y: bv64, m: bv64)
    requires Fits(x, m) && Fits(y, m)
    ensures Fits(Xor(x, y), m)
  {
  }

  lemma BelowFits(w: bv64, x: bv64, m: bv64)
    requires w <= 0xff && Fits(x, m)
    ensures Fits(Below(w, x), Wider(m))
  {}

  lemma {:induction false} WindowFits(s: bytes)
    ensures Fits(Window(s), Mask(|s|))
    decreases |s|
  {
    if s == [] {
      assert Window(s) == 0;
    } else {
      hide Xor, Widen, Fits, Wider, Below;
      WindowFits(s[1..]);
      WidenSmall(s[0]);
      BelowFits(Widen(s[0]), Window(s[1..]), Mask(|s| - 1));
    }
  }

  lemma {:induction false} MaskSmall(n: nat)
    requires n <= 7
    ensures Fits(Mask(n), 0xff_ffff_ffff_ffff)
  {
    assert Mask(0) == 0 && Mask(1) == 0xff && Mask(2) == 0xffff && Mask(3) == 0xff_ffff;
    assert Mask(4) == 0xffff_ffff && Mask(5) == 0xff_ffff_ffff && Mask(6) == 0xffff_ffff_ffff;
    assert Mask(7) == 0xff_ffff_ffff_ffff;
    if n == 0 {} else if n == 1 {} else if n == 2 {} else if n == 3 {} else if n == 4 {} else if n == 5 {}
    else if n == 6 {} else {}
  }

  /** Eight steps undo a shift by an octet that loses no bits. */
  lemma Step8Below(x: bv64, m: bv64)
    requires Fits(x, m) && Fits(m, 0xff_ffff_ffff_ffff)
    ensures Step8(Up(x)) == x
  {
    hide Step8;
    assert x & 0xff_ffff_ffff_ffff == x;
    assert (x << 8) & 0xff == 0 && (x << 8) >> 8 == x;
    Step8Shifts(x << 8);
  }

  lemma UpSum(x: bv64, y: bv64)
    ensures Up(Xor(x, y)) == Xor(Up(x), Up(y))
  {
  }

  lemma Solve(p: bv64, q: bv64)
    ensures p == Xor(q, Xor(p, q))
  {
  }

  lemma Rearrange(c: bv64, d: bv64, a: bv64, b: bv64, x: bv64, y: bv64)
    requires Xor(Xor(c, a), Xor(d, b)) == Up(Xor(x, y))
    ensures Xor(c, d) == Xor(Below(a, x), Below(b, y))
  {
    hide Xor, Up;
    Pairs(c, d, a, b);
    Pairs(a, b, Up(x), Up(y));
    UpSum(x, y);
    Solve(Xor(c, d), Xor(a, b));
  }

  /** One octet more, in front. */
  lemma FirstDifference(c: bv64, d: bv64, s: bytes, t: bytes)
    requires 0 < |s| == |t| <= 8
    requires Xor(Update(c, s[0]), Update(d, t[0])) == Xor(Window(s[1..]), Window(t[1..]))
    ensures Xor(c, d) == Xor(Below(Widen(s[0]), Window(s[1..])), Below(Widen(t[0]), Window(t[1..])))
  {
    hide Xor, Widen, Fits, Wider, Below, Up, Step8, Update, Mask, Window;
    var x, y := Window(s[1..]), Window(t[1..]);
    UpdateDivides(c, s[0]);
    UpdateDivides(d, t[0]);
    var a, b := Xor(c, Widen(s[0])), Xor(d, Widen(t[0]));
    Step8Linear(a, b);
    WindowFits(s[1..]);
    WindowFits(t[1..]);
    var m := Mask(|s| - 1);
    SumFits(x, y, m);
    MaskSmall(|s| - 1);
    Step8Below(Xor(x, y), m);
    Step8Injective(Xor(a, b), Up(Xor(x, y)));
    Rearrange(c, d, Widen(s[0]), Widen(t[0]), x, y);
  }

  /** Over at most eight octets, equal checksums mean that the starting values differ exactly as much
      as the octets do. */
  lemma {:induction false} WindowDifference(c: bv64, d: bv64, s: bytes, t: bytes)
    requires |s| == |t| <= 8 && Crc(c, s) == Crc(d, t)
    ensures Xor(c, d) == Xor(Window(s), Window(t))
    decreases |s|
  {
    if s == [] {
      Zero(c);
    } else {
      hide Xor, Widen, Below, Update;
      WindowDifference(Update(c, s[0]), Update(d, t[0]), s[1..], t[1..]);
      FirstDifference(c, d, s, t);
    }
  }

  lemma {:induction false} WindowInjective(s: bytes, t: bytes)
    requires |s| == |t| <= 8 && Window(s) == Window(t)
    ensures s == t
    decreases |s|
  {
    if s != [] {
      hide Xor, Widen, Fits, Wider, Below;
      WindowFits(s[1..]);
      WindowFits(t[1..]);
      MaskSmall(|s| - 1);
      WidenInjective(s[0], t[0]);
      WidenSmall(s[0]);
      WidenSmall(t[0]);
      WindowInjective(s[1..], t[1..]);
      assert s == [s[0]] + s[1..] && t == [t[0]] + t[1..];
    }
  }

  lemma SameSum(c: bv64, x: bv64, y: bv64)
    requires Xor(c, c) == Xor(x, y)
    ensures x == y
  {}

  /** Two streams that differ only within eight consecutive octets never have the same checksum. */
  lemma DifferenceDetected(before: bytes, s: bytes, t: bytes, after: bytes)
    requires |s| == |t| <= 8 && s != t
    ensures Crc(0, before + s + after) != Crc(0, before + t + after)
  {
    hide Crc, Window, Xor;
    var c := Crc(0, before);
    CrcAppend(0, before, s);
    CrcAppend(0, before, t);
    CrcAppend(0, before + s, after);
    CrcAppend(0, before + t, after);
    if Crc(0, before + s + after) == Crc(0, before + t + after) {
      CrcInjective(Crc(c, s), Crc(c, t), after);
      WindowDifference(c, c, s, t);
      SameSum(c, Window(s), Window(t));
      WindowInjective(s, t);
    }
  }

  /** crc64, over `l` octets. */
  method Crc64(crc: bv64, s: bytes) returns (r: bv64)
    ensures r == Crc(crc, s)
  {
    hide Update;
    r := crc;
    var j := 0;
    while j < |s|
      invariant 0 <= j <= |s| && Crc(r, s[j..]) == Crc(crc, s)
    {
      assert s[j..][1..] == s[j + 1..];
      r := Update(r, s[j]);
      j := j + 1;
    }
  }
}
