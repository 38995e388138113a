/**
 The table-driven CRC32C of tst_crc32c against the bit-serial definition: the
 reflected polynomial 0x82f63b78, initial value and final complement 0xffffffff
 (section 12.1 of RFC 3720).
 */
module Crc32c {

  type Byte = b: bv32 | b <= 0xff

  const POLY: bv32 := 0x82f63b78

  const ROW_0: seq<bv32> :=
    [0x00000000, 0xf26b8303, 0xe13b70f7, 0x1350f3f4, 0xc79a971f, 0x35f1141c, 0x26a1e7e8, 0xd4ca64eb,
     0x8ad958cf, 0x78b2dbcc, 0x6be22838, 0x9989ab3b, 0x4d43cfd0, 0xbf284cd3, 0xac78bf27, 0x5e133c24]
  const ROW_1: seq<bv32> :=
    [0x105ec76f, 0xe235446c, 0xf165b798, 0x030e349b, 0xd7c45070, 0x25afd373, 0x36ff2087, 0xc494a384,
     0x9a879fa0, 0x68ec1ca3, 0x7bbcef57, 0x89d76c54, 0x5d1d08bf, 0xaf768bbc, 0xbc267848, 0x4e4dfb4b]
  const ROW_2: seq<bv32> :=
    [0x20bd8ede, 0xd2d60ddd, 0xc186fe29, 0x33ed7d2a, 0xe72719c1, 0x154c9ac2, 0x061c6936, 0xf477ea35,
     0xaa64d611, 0x580f5512, 0x4b5fa6e6, 0xb93425e5, 0x6dfe410e, 0x9f95c20d, 0x8cc531f9, 0x7eaeb2fa]
  const ROW_3: seq<bv32> :=
    [0x30e349b1, 0xc288cab2, 0xd1d83946, 0x23b3ba45, 0xf779deae, 0x05125dad, 0x1642ae59, 0xe4292d5a,
     0xba3a117e, 0x4851927d, 0x5b016189, 0xa96ae28a, 0x7da08661, 0x8fcb0562, 0x9c9bf696, 0x6ef07595]
  const ROW_4: seq<bv32> :=
    [0x417b1dbc, 0xb3109ebf, 0xa0406d4b, 0x522bee48, 0x86e18aa3, 0x748a09a0, 0x67dafa54, 0x95b17957,
     0xcba24573, 0x39c9c670, 0x2a993584, 0xd8f2b687, 0x0c38d26c, 0xfe53516f, 0xed03a29b, 0x1f682198]
  const ROW_5: seq<bv32> :=
    [0x5125dad3, 0xa34e59d0, 0xb01eaa24, 0x42752927, 0x96bf4dcc, 0x64d4cecf, 0x77843d3b, 0x85efbe38,
     0xdbfc821c, 0x2997011f, 0x3ac7f2eb, 0xc8ac71e8, 0x1c661503, 0xee0d9600, 0xfd5d65f4, 0x0f36e6f7]
  const ROW_6: seq<bv32> :=
    [0x61c69362, 0x93ad1061, 0x80fde395, 0x72966096, 0xa65c047d, 0x5437877e, 0x4767748a, 0xb50cf789,
     0xeb1fcbad, 0x197448ae, 0x0a24bb5a, 0xf84f3859, 0x2c855cb2, 0xdeeedfb1, 0xcdbe2c45, 0x3fd5af46]
  const ROW_7: seq<bv32> :=
    [0x7198540d, 0x83f3d70e, 0x90a324fa, 0x62c8a7f9, 0xb602c312, 0x44694011, 0x5739b3e5, 0xa55230e6,
     0xfb410cc2, 0x092a8fc1, 0x1a7a7c35, 0xe811ff36, 0x3cdb9bdd, 0xceb018de, 0xdde0eb2a, 0x2f8b6829]
  const ROW_8: seq<bv32> :=
    [0x82f63b78, 0x709db87b, 0x63cd4b8f, 0x91a6c88c, 0x456cac67, 0xb7072f64, 0xa457dc90, 0x563c5f93,
     0x082f63b7, 0xfa44e0b4, 0xe9141340, 0x1b7f9043, 0xcfb5f4a8, 0x3dde77ab, 0x2e8e845f, 0xdce5075c]
  const ROW_9: seq<bv32> :=
    [0x92a8fc17, 0x60c37f14, 0x73938ce0, 0x81f80fe3, 0x55326b08, 0xa759e80b, 0xb4091bff, 0x466298fc,
     0x1871a4d8, 0xea1a27db, 0xf94ad42f, 0x0b21572c, 0xdfeb33c7, 0x2d80b0c4, 0x3ed04330, 0xccbbc033]
  const ROW_A: seq<bv32> :=
    [0xa24bb5a6, 0x502036a5, 0x4370c551, 0xb11b4652, 0x65d122b9, 0x97baa1ba, 0x84ea524e, 0x7681d14d,
     0x2892ed69, 0xdaf96e6a, 0xc9a99d9e, 0x3bc21e9d, 0xef087a76, 0x1d63f975, 0x0e330a81, 0xfc588982]
  const ROW_B: seq<bv32> :=
    [0xb21572c9, 0x407ef1ca, 0x532e023e, 0xa145813d, 0x758fe5d6, 0x87e466d5, 0x94b49521, 0x66df1622,
     0x38cc2a06, 0xcaa7a905, 0xd9f75af1, 0x2b9cd9f2, 0xff56bd19, 0x0d3d3e1a, 0x1e6dcdee, 0xec064eed]
  const ROW_C: seq<bv32> :=
    [0xc38d26c4, 0x31e6a5c7, 0x22b65633, 0xd0ddd530, 0x0417b1db, 0xf67c32d8, 0xe52cc12c, 0x1747422f,
     0x49547e0b, 0xbb3ffd08, 0xa86f0efc, 0x5a048dff, 0x8ecee914, 0x7ca56a17, 0x6ff599e3, 0x9d9e1ae0]
  const ROW_D: seq<bv32> :=
    [0xd3d3e1ab, 0x21b862a8, 0x32e8915c, 0xc083125f, 0x144976b4, 0xe622f5b7, 0xf5720643, 0x07198540,
     0x590ab964, 0xab613a67, 0xb831c993, 0x4a5a4a90, 0x9e902e7b, 0x6cfbad78, 0x7fab5e8c, 0x8dc0dd8f]
  const ROW_E: seq<bv32> :=
    [0xe330a81a, 0x115b2b19, 0x020bd8ed, 0xf0605bee, 0x24aa3f05, 0xd6c1bc06, 0xc5914ff2, 0x37faccf1,
     0x69e9f0d5, 0x9b8273d6, 0x88d28022, 0x7ab90321, 0xae7367ca, 0x5c18e4c9, 0x4f48173d, 0xbd23943e]
  const ROW_F: seq<bv32> :=
    [0xf36e6f75, 0x0105ec76, 0x12551f82, 0xe03e9c81, 0x34f4f86a, 0xc69f7b69, 0xd5cf889d, 0x27a40b9e,
     0x79b737ba, 0x8bdcb4b9, 0x988c474d, 0x6ae7c44e, 0xbe2da0a5, 0x4c4623a6, 0x5f16d052, 0xad7d5351]

  /** crc32c_table, sixteen entries a row. */
  function Row(i: bv32): (row: seq<bv32>)
    ensures |row| == 16
  {
    if i == 0 then ROW_0
    else if i == 1 then ROW_1
    else if i == 2 then ROW_2
    else if i == 3 then ROW_3
    else if i == 4 then ROW_4
    else if i == 5 then ROW_5
    else if i == 6 then ROW_6
    else if i == 7 then ROW_7
    else if i == 8 then ROW_8
    else if i == 9 then ROW_9
    else if i == 10 then ROW_A
    else if i == 11 then ROW_B
    else if i == 12 then ROW_C
    else if i == 13 then ROW_D
    else if i == 14 then ROW_E
    else ROW_F
  }

  function Table(i: Byte): bv32 {
    Row(i >> 4)[(i & 0xf) as int]
  }

  // ----- The reference: one message bit at a time, least significant bit first -----

  /** One step of the reflected division. */
  function Shift(crc: bv32): bv32 {
    if crc & 1 == 1 then (crc >> 1) ^ POLY else crc >> 1
  }

  /** What one message bit does to the remainder. */
  function Divide(crc: bv32, bit: bool): bv32 {
    if bit then Shift(crc ^ 1) else Shift(crc)
  }

  /** Running a bit-at-a-time machine over a message. */
  function Feed<S>(step: (S, bool) -> S, s: S, bits: seq<bool>): S
    decreases |bits|
  {
    if bits == [] then s else Feed(step, step(s, bits[0]), bits[1..])
  }

  predicate Low(x: bv32) {
    x & 1 != 0
  }

  function Half(x: bv32): bv32 {
    x >> 1
  }

  /** The first n digits, least significant first. */
  function Digits<T>(low: T -> bool, half: T -> T, n: nat, x: T): (bits: seq<bool>)
    ensures |bits| == n
  {
    if n == 0 then [] else [low(x)] + Digits(low, half, n - 1, half(x))
  }

  function LowBits(n: nat, x: bv32): (bits: seq<bool>)
    ensures |bits| == n
  {
    Digits(Low, Half, n, x)
  }

  function MessageBits(buf: seq<Byte>): (bits: seq<bool>)
    ensures |bits| == 8 * |buf|
  {
    if buf == [] then [] else LowBits(8, buf[0]) + MessageBits(buf[1..])
  }

  /** CRC32C of a message. */
  function Crc(buf: seq<Byte>): bv32 {
    !Feed(Divide, 0xffff_ffff, MessageBits(buf))
  }

  // ----- What the step is good for -----

  function Xor(x: bv32, y: bv32): bv32 {
    x ^ y
  }

  ghost predicate Respects<T(!new)>(f: T -> T, op: (T, T) -> T) {
    forall x, y :: f(op(x, y)) == op(f(x), f(y))
  }

  ghost predicate Injective(f: bv32 -> bv32) {
    forall x, y :: f(x) == f(y) ==> x == y
  }

  lemma EvenEven(x: bv32, y: bv32)
    requires x & 1 != 1 && y & 1 != 1
    ensures Shift(x ^ y) == Shift(x) ^ Shift(y)
  {
  }

  lemma EvenOdd(x: bv32, y: bv32)
    requires x & 1 != 1 && y & 1 == 1
    ensures Shift(x ^ y) == Shift(x) ^ Shift(y)
  {
  }

  lemma OddOdd(x: bv32, y: bv32)
    requires x & 1 == 1 && y & 1 == 1
    ensures Shift(x ^ y) == Shift(x) ^ Shift(y)
  {
  }

  lemma ShiftXor(x: bv32, y: bv32)
    ensures Shift(x ^ y) == Shift(x) ^ Shift(y)
  {
    if x & 1 == 1 {
      if y & 1 == 1 {
        OddOdd(x, y);
      } else {
        EvenOdd(y, x);
        assert x ^ y == y ^ x;
      }
    } else {
      if y & 1 == 1 {
        EvenOdd(x, y);
      } else {
        EvenEven(x, y);
      }
    }
  }

  lemma ShiftLinear()
    ensures Respects(Shift, Xor)
  {
    forall x, y ensures Shift(Xor(x, y)) == Xor(Shift(x), Shift(y)) {
      ShiftXor(x, y);
    }
  }

  function Unshift(crc: bv32): bv32 {
    if crc & 0x8000_0000 != 0 then ((crc ^ POLY) << 1) | 1 else crc << 1
  }

  /** The top bit of the polynomial tells which way a step went. */
  lemma UnshiftShift(x: bv32)
    ensures Unshift(Shift(x)) == x
  {
  }

  lemma ShiftInjective()
    ensures Injective(Shift)
  {
    forall x, y | Shift(x) == Shift(y) ensures x == y {
      UnshiftShift(x);
      UnshiftShift(y);
    }
  }

  // ----- The table -----

  function Times<T>(f: T -> T, n: nat, x: T): T {
    if n == 0 then x else Times(f, n - 1, f(x))
  }

  lemma {:induction false} TimesRespects<T(!new)>(f: T -> T, op: (T, T) -> T, n: nat, x: T, y: T)
    requires Respects(f, op)
    ensures Times(f, n, op(x, y)) == op(Times(f, n, x), Times(f, n, y))
  {
    if n > 0 {
      TimesRespects(f, op, n - 1, f(x), f(y));
    }
  }

  /** A row with every entry changed by the same word. */
  function Shifted<T>(op: (T, T) -> T, row: seq<T>, x: T): (r: seq<T>)
    requires |row| == 16
    ensures |r| == 16
  {
    [op(row[0], x), op(row[1], x), op(row[2], x), op(row[3], x),
     op(row[4], x), op(row[5], x), op(row[6], x), op(row[7], x),
     op(row[8], x), op(row[9], x), op(row[10], x), op(row[11], x),
     op(row[12], x), op(row[13], x), op(row[14], x), op(row[15], x)]
  }

  lemma ShiftedAt<T>(op: (T, T) -> T, row: seq<T>, x: T, k: nat)
    requires |row| == 16 && k < 16
    ensures Shifted(op, row, x)[k] == op(row[k], x)
  {
  }

  lemma RowsTo7()
    ensures ROW_0 == Shifted(Xor, ROW_0, ROW_0[0])
    ensures ROW_1 == Shifted(Xor, ROW_0, ROW_1[0])
    ensures ROW_2 == Shifted(Xor, ROW_0, ROW_2[0])
    ensures ROW_3 == Shifted(Xor, ROW_0, ROW_3[0])
    ensures ROW_4 == Shifted(Xor, ROW_0, ROW_4[0])
    ensures ROW_5 == Shifted(Xor, ROW_0, ROW_5[0])
    ensures ROW_6 == Shifted(Xor, ROW_0, ROW_6[0])
    ensures ROW_7 == Shifted(Xor, ROW_0, ROW_7[0])
  {
  }

  lemma RowsFrom8()
    ensures ROW_8 == Shifted(Xor, ROW_0, ROW_8[0])
    ensures ROW_9 == Shifted(Xor, ROW_0, ROW_9[0])
    ensures ROW_A == Shifted(Xor, ROW_0, ROW_A[0])
    ensures ROW_B == Shifted(Xor, ROW_0, ROW_B[0])
    ensures ROW_C == Shifted(Xor, ROW_0, ROW_C[0])
    ensures ROW_D == Shifted(Xor, ROW_0, ROW_D[0])
    ensures ROW_E == Shifted(Xor, ROW_0, ROW_E[0])
    ensures ROW_F == Shifted(Xor, ROW_0, ROW_F[0])
  {
  }

  lemma RowShifted(i: bv32)
    requires i < 16
    ensures Row(i) == Shifted(Xor, ROW_0, Row(i)[0])
  {
    RowsTo7();
    RowsFrom8();
  }

  /** What a function makes of the sixteen low words. */
  function Values(g: bv32 -> bv32): seq<bv32> {
    [g(0), g(1), g(2), g(3), g(4), g(5), g(6), g(7), g(8), g(9), g(10), g(11), g(12), g(13), g(14), g(15)]
  }

  lemma ValueAt(g: bv32 -> bv32, row: seq<bv32>, k: bv32)
    requires k < 16 && row == Values(g)
    ensures row[k as int] == g(k)
  {
  }

  /** The division of a whole byte. */
  function ShiftByte(x: bv32): bv32 {
    Times(Shift, 8, x)
  }

  lemma ByteLinear()
    ensures Respects(ShiftByte, Xor)
  {
    ShiftLinear();
    forall x, y ensures ShiftByte(Xor(x, y)) == Xor(ShiftByte(x), ShiftByte(y)) {
      TimesRespects(Shift, Xor, 8, x, y);
    }
  }

  lemma FirstRow()
    ensures ROW_0 == Values(ShiftByte)
  {
  }

  lemma RowHead(i: bv32)
    requires i < 16
    ensures Row(i)[0] == ShiftByte(i << 4)
  {
  }

  lemma Nibbles(i: Byte)
    ensures i >> 4 < 16 && i & 0xf < 16 && (i & 0xf) ^ ((i >> 4) << 4) == i
  {
  }

  /** The entry in column `k` of a row that starts with the value of `high`. */
  lemma EntryIs<T>(g: T -> T, op: (T, T) -> T, first: seq<T>, row: seq<T>, k: nat, i: T, low: T, high: T)
    requires |first| == 16 == |row| && k < 16 && row == Shifted(op, first, g(high))
    requires first[k] == g(low) && op(low, high) == i && g(op(low, high)) == op(g(low), g(high))
    ensures row[k] == g(i)
  {
    ShiftedAt(op, first, g(high), k);
  }

  lemma LowEntry(i: Byte)
    ensures i & 0xf < 16 && ROW_0[(i & 0xf) as int] == ShiftByte(i & 0xf)
  {
    FirstRow();
    ValueAt(ShiftByte, ROW_0, i & 0xf);
  }

  lemma RowOf(i: Byte)
    ensures Row(i >> 4) == Shifted(Xor, ROW_0, ShiftByte((i >> 4) << 4))
  {
    Nibbles(i);
    RowShifted(i >> 4);
    RowHead(i >> 4);
  }

  lemma TableFrom(g: bv32 -> bv32, i: Byte)
    requires Respects(g, Xor) && (i & 0xf < 16 && ROW_0[(i & 0xf) as int] == g(i & 0xf))
    requires Row(i >> 4) == Shifted(Xor, ROW_0, g((i >> 4) << 4))
    ensures Table(i) == g(i)
  {
    Nibbles(i);
    EntryIs(g, Xor, ROW_0, Row(i >> 4), (i & 0xf) as int, i, i & 0xf, (i >> 4) << 4);
  }

  /** Every table entry is its index divided bit by bit. */
  lemma TableIsDivision(i: Byte)
    ensures Table(i) == ShiftByte(i)
  {
    LowEntry(i);
    RowOf(i);
    ByteLinear();
    TableFrom(ShiftByte, i);
  }

  lemma HighPart(x: bv32)
    ensures ShiftByte(x & 0xffff_ff00) == x >> 8
  {
  }

  function TableStep(crc: bv32, b: Byte): bv32 {
    Table((crc ^ b) & 0xff) ^ (crc >> 8)
  }

  lemma SplitWord(x: bv32, crc: bv32, b: Byte)
    requires x == crc ^ b
    ensures (x & 0xff) ^ (x & 0xffff_ff00) == x && x >> 8 == crc >> 8
  {
  }

  lemma Combine<T(!new)>(f: T -> T, op: (T, T) -> T, n: nat, x: T, low: T, high: T, low': T, high': T)
    requires Respects(f, op) && op(low, high) == x
    requires Times(f, n, low) == low' && Times(f, n, high) == high'
    ensures Times(f, n, x) == op(low', high')
  {
    TimesRespects(f, op, n, low, high);
  }

  /** The number of steps is a variable, as the verifier unfolds a literal number of them. */
  lemma StepWithEntry(n: nat, crc: bv32, b: Byte, entry: bv32)
    requires n == 8 && entry == Times(Shift, n, (crc ^ b) & 0xff)
    ensures Xor(entry, crc >> 8) == Times(Shift, n, crc ^ b)
  {
    var x := crc ^ b;
    SplitWord(x, crc, b);
    HighPart(x);
    ShiftLinear();
    Combine(Shift, Xor, n, x, x & 0xff, x & 0xffff_ff00, entry, crc >> 8);
  }

  /** One table step is eight steps of the division. */
  lemma TableStepIsDivision(crc: bv32, b: Byte)
    ensures TableStep(crc, b) == ShiftByte(crc ^ b)
  {
    TableIsDivision((crc ^ b) & 0xff);
    StepWithEntry(8, crc, b, Table((crc ^ b) & 0xff));
  }

  lemma {:induction false} FeedConcat<S>(step: (S, bool) -> S, s: S, x: seq<bool>, y: seq<bool>)
    ensures Feed(step, s, x + y) == Feed(step, Feed(step, s, x), y)
    decreases |x|
  {
    if x == [] {
      assert x + y == y;
    } else {
      FeedConcat(step, step(s, x[0]), x[1..], y);
      assert (x + y)[1..] == x[1..] + y;
    }
  }

  lemma PeelOddOdd(crc: bv32, b: bv32)
    requires b & 1 == 1 && crc & 1 == 1
    ensures Shift(crc ^ b) == Shift(crc ^ 1) ^ (b >> 1)
  {
  }

  lemma PeelEvenOdd(crc: bv32, b: bv32)
    requires b & 1 == 1 && crc & 1 == 0
    ensures Shift(crc ^ b) == Shift(crc ^ 1) ^ (b >> 1)
  {
  }

  lemma PeelOddEven(crc: bv32, b: bv32)
    requires b & 1 == 0 && crc & 1 == 1
    ensures Shift(crc ^ b) == Shift(crc) ^ (b >> 1)
  {
  }

  lemma PeelEvenEven(crc: bv32, b: bv32)
    requires b & 1 == 0 && crc & 1 == 0
    ensures Shift(crc ^ b) == Shift(crc) ^ (b >> 1)
  {
  }

  lemma PeelOne(crc: bv32, b: bv32)
    requires b & 1 != 0
    ensures Shift(crc ^ b) == Divide(crc, true) ^ (b >> 1)
  {
    if crc & 1 == 1 {
      PeelOddOdd(crc, b);
    } else {
      PeelEvenOdd(crc, b);
    }
  }

  lemma PeelZero(crc: bv32, b: bv32)
    requires b & 1 == 0
    ensures Shift(crc ^ b) == Divide(crc, false) ^ (b >> 1)
  {
    if crc & 1 == 1 {
      PeelOddEven(crc, b);
    } else {
      PeelEvenEven(crc, b);
    }
  }

  /** Adding x and stepping is feeding its lowest digit and adding the rest. */
  ghost predicate Peels<T(!new)>(f: T -> T, op: (T, T) -> T, step: (T, bool) -> T, low: T -> bool, half: T -> T) {
    forall s, x :: f(op(s, x)) == op(step(s, low(x)), half(x))
  }

  /** Adding the digits up front or one at a time makes no difference. */
  lemma {:induction false} FeedDigits<T(!new)>(f: T -> T, op: (T, T) -> T, step: (T, bool) -> T,
                                               low: T -> bool, half: T -> T, n: nat, s: T, x: T)
    requires Peels(f, op, step, low, half)
    ensures Times(f, n, op(s, x)) == op(Feed(step, s, Digits(low, half, n, x)), Times(half, n, x))
  {
    if n > 0 {
      FeedDigits(f, op, step, low, half, n - 1, step(s, low(x)), half(x));
      assert Digits(low, half, n, x)[1..] == Digits(low, half, n - 1, half(x));
    }
  }

  lemma Peel(s: bv32, x: bv32)
    ensures Shift(Xor(s, x)) == Xor(Divide(s, Low(x)), Half(x))
  {
    if x & 1 != 0 {
      PeelOne(s, x);
    } else {
      PeelZero(s, x);
    }
  }

  lemma HalvedAway(x: Byte)
    ensures Times(Half, 8, x) == 0
  {
  }

  lemma ShiftPeels()
    ensures Peels(Shift, Xor, Divide, Low, Half)
  {
    forall s, x ensures Shift(Xor(s, x)) == Xor(Divide(s, Low(x)), Half(x)) {
      Peel(s, x);
    }
  }

  /** Nothing is left of a byte after eight digits. */
  lemma FeedAllDigits<T(!new)>(f: T -> T, op: (T, T) -> T, step: (T, bool) -> T, low: T -> bool, half: T -> T,
                               n: nat, s: T, x: T, zero: T)
    requires Peels(f, op, step, low, half) && Times(half, n, x) == zero
    requires forall x :: op(x, zero) == x
    ensures Times(f, n, op(s, x)) == Feed(step, s, Digits(low, half, n, x))
  {
    FeedDigits(f, op, step, low, half, n, s, x);
  }

  lemma FeedByteSteps(crc: bv32, b: Byte)
    ensures Feed(Divide, crc, LowBits(8, b)) == ShiftByte(Xor(crc, b))
  {
    ShiftPeels();
    HalvedAway(b);
    FeedAllDigits(Shift, Xor, Divide, Low, Half, 8, crc, b, 0);
  }

  /** Feeding the eight bits of a byte is one table step. */
  lemma FeedByte(crc: bv32, b: Byte)
    ensures Feed(Divide, crc, LowBits(8, b)) == TableStep(crc, b)
  {
    FeedByteSteps(crc, b);
    TableStepIsDivision(crc, b);
  }

  lemma FeedMessage(crc: bv32, buf: seq<Byte>)
    requires buf != []
    ensures Feed(Divide, crc, MessageBits(buf)) == Feed(Divide, TableStep(crc, buf[0]), MessageBits(buf[1..]))
  {
    FeedByte(crc, buf[0]);
    FeedConcat(Divide, crc, LowBits(8, buf[0]), MessageBits(buf[1..]));
  }

  /** tst_crc32c computes the bit-serial CRC32C of the whole buffer. */
  method Crc32c(buf: array<Byte>) returns (crc: bv32)
    ensures crc == Crc(buf[..])
  {
    crc := 0xffff_ffff;
    var i := 0;
    assert buf[0..] == buf[..];
    while i < buf.Length
      invariant 0 <= i <= buf.Length
      invariant Feed(Divide, crc, MessageBits(buf[i..])) == Feed(Divide, 0xffff_ffff, MessageBits(buf[..]))
    {
      FeedMessage(crc, buf[i..]);
      assert buf[i..][1..] == buf[i + 1..];
      crc := TableStep(crc, buf[i]);
      i := i + 1;
    }
    crc := !crc;
  }

  // ----- Error detection -----

  /** Two states that could still meet after k more bits. */
  ghost predicate Reunites<S(!new)>(step: (S, bool) -> S, close: (nat, S, S) -> bool) {
    && (forall s :: close(0, s, s))
    && (forall k: nat, s, t, a, b :: k < 32 && close(k, step(s, a), step(t, b)) ==> close(k + 1, s, t))
  }

  /** A single differing bit sets the states too far apart to meet within 31 more. */
  ghost predicate Separates<S(!new)>(step: (S, bool) -> S, close: (nat, S, S) -> bool) {
    forall k: nat, s, a, b :: k < 32 && a != b ==> !close(k, step(s, a), step(s, b))
  }

  ghost predicate Reversible<S(!new)>(step: (S, bool) -> S) {
    forall s, t, b :: step(s, b) == step(t, b) ==> s == t
  }

  lemma {:induction false} CloseBefore<S(!new)>(step: (S, bool) -> S, close: (nat, S, S) -> bool,
                                                s: S, t: S, x: seq<bool>, y: seq<bool>)
    requires Reunites(step, close) && |x| == |y| <= 32
    requires Feed(step, s, x) == Feed(step, t, y)
    ensures close(|x|, s, t)
    decreases |x|
  {
    if x == [] {
      assert y == [] && s == t;
      assert close(0, s, s);
    } else {
      var k, a, b := |x| - 1, x[0], y[0];
      CloseBefore(step, close, step(s, a), step(t, b), x[1..], y[1..]);
      assert close(k, step(s, a), step(t, b));
      assert close(k + 1, s, t);
    }
  }

  lemma {:induction false} BurstChanges<S(!new)>(step: (S, bool) -> S, close: (nat, S, S) -> bool,
                                                 s: S, x: seq<bool>, y: seq<bool>)
    requires Reunites(step, close) && Separates(step, close) && |x| == |y| <= 32 && x != y
    ensures Feed(step, s, x) != Feed(step, s, y)
    decreases |x|
  {
    if x[0] == y[0] {
      assert x == [x[0]] + x[1..] && y == [y[0]] + y[1..];
      BurstChanges(step, close, step(s, x[0]), x[1..], y[1..]);
    } else if Feed(step, s, x) == Feed(step, s, y) {
      CloseBefore(step, close, step(s, x[0]), step(s, y[0]), x[1..], y[1..]);
      assert false;
    }
  }

  lemma {:induction false} FeedReversible<S(!new)>(step: (S, bool) -> S, s: S, t: S, bits: seq<bool>)
    requires Reversible(step) && Feed(step, s, bits) == Feed(step, t, bits)
    ensures s == t
    decreases |bits|
  {
    if bits != [] {
      var b := bits[0];
      FeedReversible(step, step(s, b), step(t, b), bits[1..]);
    }
  }

  /** 2^n - 1. */
  function Ones(n: nat): bv32 {
    if n == 0 then 0 else (Ones(n - 1) << 1) | 1
  }

  /** The states differ in their low k bits only. */
  predicate Close(k: nat, s: bv32, t: bv32) {
    (s ^ t) & !Ones(k) == 0
  }

  lemma Widen(x: bv32, y: bv32)
    requires x & !y == 0
    ensures ((x << 1) | 1) & !((y << 1) | 1) == 0
  {
  }

  lemma {:induction false} OnesGrow(n: nat, m: nat)
    requires n <= m
    ensures Ones(n) & !Ones(m) == 0
  {
    if n > 0 {
      OnesGrow(n - 1, m - 1);
      Widen(Ones(n - 1), Ones(m - 1));
    }
  }

  lemma NoTop(x: bv32)
    requires x & !0x7fff_ffff == 0
    ensures x & 0x8000_0000 == 0
  {
  }

  lemma OnesTop(n: nat)
    requires n < 32
    ensures Ones(n) & 0x8000_0000 == 0
  {
    OnesGrow(n, 31);
    assert Ones(8) == 0xff;
    assert Ones(16) == 0xffff;
    assert Ones(24) == 0xff_ffff;
    assert Ones(31) == 0x7fff_ffff;
    NoTop(Ones(n));
  }

  lemma TopOutside(d: bv32, ones: bv32)
    requires ones & 0x8000_0000 == 0 && d & !ones == 0
    ensures d & 0x8000_0000 == 0
  {
  }

  lemma Meet(u: bv32, v: bv32, ones: bv32)
    requires ones & 0x8000_0000 == 0 && (Shift(u) ^ Shift(v)) & !ones == 0
    ensures (u ^ v) & !(ones << 1) == 0
  {
  }

  lemma AddBits(s: bv32, t: bv32, u: bv32, v: bv32, ones: bv32)
    requires (u == s || u == s ^ 1) && (v == t || v == t ^ 1) && (u ^ v) & !(ones << 1) == 0
    ensures (s ^ t) & !((ones << 1) | 1) == 0
  {
  }

  lemma CloseFrom(k: nat, s: bv32, t: bv32, ones: bv32)
    requires ones == Ones(k) && (s ^ t) & !((ones << 1) | 1) == 0
    ensures Close(k + 1, s, t)
  {
  }

  lemma CloseBack(k: nat, u: bv32, v: bv32) returns (ones: bv32)
    requires k < 32 && Close(k, Shift(u), Shift(v))
    ensures ones == Ones(k) && (u ^ v) & !(ones << 1) == 0
  {
    ones := Ones(k);
    OnesTop(k);
    Meet(u, v, ones);
  }

  lemma StepBackFrom(k: nat, s: bv32, t: bv32, u: bv32, v: bv32)
    requires k < 32 && (u == s || u == s ^ 1) && (v == t || v == t ^ 1)
    requires Close(k, Shift(u), Shift(v))
    ensures Close(k + 1, s, t)
  {
    var ones := CloseBack(k, u, v);
    AddBits(s, t, u, v, ones);
    CloseFrom(k, s, t, ones);
  }

  lemma StepBack(k: nat, s: bv32, t: bv32, a: bool, b: bool)
    requires k < 32 && Close(k, Divide(s, a), Divide(t, b))
    ensures Close(k + 1, s, t)
  {
    StepBackFrom(k, s, t, if a then s ^ 1 else s, if b then t ^ 1 else t);
  }

  lemma DivideReunites()
    ensures Reunites(Divide, Close)
  {
    forall s ensures Close(0, s, s) {
    }
    forall k: nat, s, t, a, b | k < 32 && Close(k, Divide(s, a), Divide(t, b)) ensures Close(k + 1, s, t) {
      StepBack(k, s, t, a, b);
    }
  }

  lemma FlipApart(s: bv32)
    ensures (Divide(s, true) ^ Divide(s, false)) & 0x8000_0000 != 0
    ensures (Divide(s, false) ^ Divide(s, true)) & 0x8000_0000 != 0
  {
  }

  lemma NotClose(k: nat, s: bv32, t: bv32)
    requires k < 32 && (s ^ t) & 0x8000_0000 != 0
    ensures !Close(k, s, t)
  {
    OnesTop(k);
    if Close(k, s, t) {
      TopOutside(s ^ t, Ones(k));
    }
  }

  lemma DivideSeparates()
    ensures Separates(Divide, Close)
  {
    forall k: nat, s, a, b | k < 32 && a != b ensures !Close(k, Divide(s, a), Divide(s, b)) {
      FlipApart(s);
      NotClose(k, Divide(s, a), Divide(s, b));
    }
  }

  lemma FlipBack(s: bv32, t: bv32)
    requires s ^ 1 == t ^ 1
    ensures s == t
  {
  }

  lemma DivideReversible()
    ensures Reversible(Divide)
  {
    forall s, t, b | Divide(s, b) == Divide(t, b) ensures s == t {
      ShiftInjective();
      if b {
        FlipBack(s, t);
      }
    }
  }

  // ----- Whole messages -----

  lemma {:induction false} DigitsInjective<T(!new)>(low: T -> bool, half: T -> T, n: nat, x: T, y: T)
    requires forall x, y :: low(x) == low(y) && half(x) == half(y) ==> x == y
    requires Digits(low, half, n, x) == Digits(low, half, n, y) && Times(half, n, x) == Times(half, n, y)
    ensures x == y
  {
    if n > 0 {
      assert Digits(low, half, n, x)[0] == Digits(low, half, n, y)[0];
      assert Digits(low, half, n, x)[1..] == Digits(low, half, n, y)[1..];
      DigitsInjective(low, half, n - 1, half(x), half(y));
    }
  }

  lemma BitsInjective(x: Byte, y: Byte)
    requires LowBits(8, x) == LowBits(8, y)
    ensures x == y
  {
    HalvedAway(x);
    HalvedAway(y);
    DigitsInjective(Low, Half, 8, x, y);
  }

  lemma {:induction false} MessageBitsInjective(a: seq<Byte>, b: seq<Byte>)
    requires |a| == |b| && MessageBits(a) == MessageBits(b)
    ensures a == b
  {
    if a != [] {
      assert MessageBits(a)[..8] == LowBits(8, a[0]) && MessageBits(a)[8..] == MessageBits(a[1..]);
      assert MessageBits(b)[..8] == LowBits(8, b[0]) && MessageBits(b)[8..] == MessageBits(b[1..]);
      BitsInjective(a[0], b[0]);
      MessageBitsInjective(a[1..], b[1..]);
      assert a == [a[0]] + a[1..] && b == [b[0]] + b[1..];
    }
  }

  /** The messages agree on every bit outside a window of 32 bits. */
  ghost predicate DifferWithin(a: seq<bool>, b: seq<bool>, from: nat)
    requires |a| == |b|
  {
    forall i :: 0 <= i < |a| && !(from <= i < from + 32) ==> a[i] == b[i]
  }

  lemma WindowChanges(a: seq<bool>, b: seq<bool>, from: nat, to: nat)
    requires |a| == |b| && a != b && from <= to <= |a| && to - from <= 32
    requires a[..from] == b[..from] && a[to..] == b[to..]
    ensures Feed(Divide, 0xffff_ffff, a) != Feed(Divide, 0xffff_ffff, b)
  {
    var x, y := a[from..to], b[from..to];
    assert a == a[..from] + (x + a[to..]) && b == b[..from] + (y + b[to..]);
    var s := Feed(Divide, 0xffff_ffff, a[..from]);
    FeedConcat(Divide, 0xffff_ffff, a[..from], x + a[to..]);
    FeedConcat(Divide, 0xffff_ffff, b[..from], y + b[to..]);
    FeedConcat(Divide, s, x, a[to..]);
    FeedConcat(Divide, s, y, b[to..]);
    DivideReunites();
    DivideSeparates();
    DivideReversible();
    BurstChanges(Divide, Close, s, x, y);
    if Feed(Divide, 0xffff_ffff, a) == Feed(Divide, 0xffff_ffff, b) {
      FeedReversible(Divide, Feed(Divide, s, x), Feed(Divide, s, y), a[to..]);
    }
  }

  /**
   Every burst of at most 32 bits is detected: two different messages of the same
   length that agree outside some window of 32 bits never have the same checksum.
   */
  lemma BurstDetected(a: seq<Byte>, b: seq<Byte>, from: nat)
    requires |a| == |b| && a != b
    requires DifferWithin(MessageBits(a), MessageBits(b), from)
    ensures Crc(a) != Crc(b)
  {
    var x, y := MessageBits(a), MessageBits(b);
    if x == y {
      MessageBitsInjective(a, b);
    }
    var lo := if from <= |x| then from else |x|;
    var hi := if from + 32 <= |x| then from + 32 else |x|;
    assert x[..lo] == y[..lo] && x[hi..] == y[hi..];
    WindowChanges(x, y, lo, hi);
    ComplementDiffers(Feed(Divide, 0xffff_ffff, x), Feed(Divide, 0xffff_ffff, y));
  }

  lemma ComplementDiffers(x: bv32, y: bv32)
    requires x != y
    ensures !x != !y
  {
  }

  lemma Regroup<T>(x: seq<T>, y: seq<T>, z: seq<T>)
    ensures x + (y + z) == x + y + z
  {
  }

  lemma {:induction false} MessageBitsAt(buf: seq<Byte>, k: nat)
    requires k <= |buf|
    ensures MessageBits(buf) == MessageBits(buf[..k]) + MessageBits(buf[k..])
  {
    if k > 0 {
      MessageBitsAt(buf[1..], k - 1);
      assert buf[..k][1..] == buf[1..][..k - 1];
      assert buf[1..][k - 1..] == buf[k..];
      Regroup(LowBits(8, buf[0]), MessageBits(buf[1..][..k - 1]), MessageBits(buf[k..]));
    } else {
      assert buf[..0] == [] && buf[0..] == buf;
    }
  }

  lemma ThreeParts(pre: seq<Byte>, x: seq<Byte>, post: seq<Byte>)
    ensures MessageBits(pre + x + post) == MessageBits(pre) + MessageBits(x) + MessageBits(post)
  {
    var a := pre + x + post;
    MessageBitsAt(a, |pre + x|);
    assert a[..|pre + x|] == pre + x && a[|pre + x|..] == post;
    MessageBitsAt(pre + x, |pre|);
    assert (pre + x)[..|pre|] == pre && (pre + x)[|pre|..] == x;
  }

  lemma ShortWindow(pre: seq<bool>, x: seq<bool>, y: seq<bool>, post: seq<bool>)
    requires |x| == |y| <= 32
    ensures DifferWithin(pre + x + post, pre + y + post, |pre|)
  {
  }

  /** In particular a change confined to four consecutive bytes is always noticed. */
  lemma FourBytesDetected(pre: seq<Byte>, x: seq<Byte>, y: seq<Byte>, post: seq<Byte>)
    requires |x| == |y| <= 4 && x != y
    ensures Crc(pre + x + post) != Crc(pre + y + post)
  {
    ThreeParts(pre, x, post);
    ThreeParts(pre, y, post);
    ShortWindow(MessageBits(pre), MessageBits(x), MessageBits(y), MessageBits(post));
    var a, b := pre + x + post, pre + y + post;
    assert a[|pre|..|pre| + |x|] == x && b[|pre|..|pre| + |y|] == y;
    BurstDetected(a, b, |MessageBits(pre)|);
  }
}
