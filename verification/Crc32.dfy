/** The CRC-32 of Rbtree/ngx_crc32.h and Rbtree/ngx_crc32.c: by nibbles, by bytes, and bit by bit as section 5.5 of the
    W3C PNG specification defines it. */
module Crc32 {

  // ---------- the definition: one bit at a time ----------

  const POLYNOMIAL: bv32 := 0xedb88320 // x^32 is not stored; bit 31 is the coefficient of 1

  /** The coefficient of x^e. */
  function Term(e: nat): bv32
    requires e <= 31
  {
    1 << (31 - e)
  }

  /** x^32 + x^26 + x^23 + x^22 + x^16 + x^12 + x^11 + x^10 + x^8 + x^7 + x^5 + x^4 + x^2 + x + 1 */
  lemma PolynomialIs()
    ensures POLYNOMIAL == Term(26) | Term(23) | Term(22) | Term(16) | Term(12) | Term(11) | Term(10)
      | Term(8) | Term(7) | Term(5) | Term(4) | Term(2) | Term(1) | Term(0)
  {
  }

  function Xor(a: bv32, b: bv32): bv32 { a ^ b }

  function Half(c: bv32): bv32 { c >> 1 }

  predicate Odd(c: bv32) { c & 1 != 0 }

  function Step(c: bv32): bv32 { if Odd(c) then Xor(Half(c), POLYNOMIAL) else Half(c) }

  /** The next message bit goes in at the low end. */
  function FeedBit(c: bv32, bit: bool): bv32 { Step(if bit then Xor(c, 1) else c) }

  function FeedBits(c: bv32, bits: seq<bool>): bv32
    decreases |bits|
  {
    if bits == [] then c else FeedBits(FeedBit(c, bits[0]), bits[1..])
  }

  /** The lowest `n` bits, least significant first. */
  function LowBits(b: bv32, n: nat): seq<bool> {
    if n == 0 then [] else [Odd(b)] + LowBits(Half(b), n - 1)
  }

  function BitsOf(p: seq<bv8>): seq<bool> {
    if p == [] then [] else LowBits(Wide(p[0]), 8) + BitsOf(p[1..])
  }

  /** All ones at first, and the complement at the end. */
  function Crc(p: seq<bv8>): bv32 { Xor(FeedBits(0xffffffff, BitsOf(p)), 0xffffffff) }

  // ---------- the tables ----------

  const TABLE16: seq<bv32> := [
    0x00000000, 0x1db71064, 0x3b6e20c8, 0x26d930ac,
    0x76dc4190, 0x6b6b51f4, 0x4db26158, 0x5005713c,
    0xedb88320, 0xf00f9344, 0xd6d6a3e8, 0xcb61b38c,
    0x9b64c2b0, 0x86d3d2d4, 0xa00ae278, 0xbdbdf21c
  ]

  const ROW0: seq<bv32> := [
    0x00000000, 0x77073096, 0xee0e612c, 0x990951ba, 0x076dc419, 0x706af48f, 0xe963a535, 0x9e6495a3,
    0x0edb8832, 0x79dcb8a4, 0xe0d5e91e, 0x97d2d988, 0x09b64c2b, 0x7eb17cbd, 0xe7b82d07, 0x90bf1d91]
  const ROW1: seq<bv32> := [
    0x1db71064, 0x6ab020f2, 0xf3b97148, 0x84be41de, 0x1adad47d, 0x6ddde4eb, 0xf4d4b551, 0x83d385c7,
    0x136c9856, 0x646ba8c0, 0xfd62f97a, 0x8a65c9ec, 0x14015c4f, 0x63066cd9, 0xfa0f3d63, 0x8d080df5]
  const ROW2: seq<bv32> := [
    0x3b6e20c8, 0x4c69105e, 0xd56041e4, 0xa2677172, 0x3c03e4d1, 0x4b04d447, 0xd20d85fd, 0xa50ab56b,
    0x35b5a8fa, 0x42b2986c, 0xdbbbc9d6, 0xacbcf940, 0x32d86ce3, 0x45df5c75, 0xdcd60dcf, 0xabd13d59]
  const ROW3: seq<bv32> := [
    0x26d930ac, 0x51de003a, 0xc8d75180, 0xbfd06116, 0x21b4f4b5, 0x56b3c423, 0xcfba9599, 0xb8bda50f,
    0x2802b89e, 0x5f058808, 0xc60cd9b2, 0xb10be924, 0x2f6f7c87, 0x58684c11, 0xc1611dab, 0xb6662d3d]
  const ROW4: seq<bv32> := [
    0x76dc4190, 0x01db7106, 0x98d220bc, 0xefd5102a, 0x71b18589, 0x06b6b51f, 0x9fbfe4a5, 0xe8b8d433,
    0x7807c9a2, 0x0f00f934, 0x9609a88e, 0xe10e9818, 0x7f6a0dbb, 0x086d3d2d, 0x91646c97, 0xe6635c01]
  const ROW5: seq<bv32> := [
    0x6b6b51f4, 0x1c6c6162, 0x856530d8, 0xf262004e, 0x6c0695ed, 0x1b01a57b, 0x8208f4c1, 0xf50fc457,
    0x65b0d9c6, 0x12b7e950, 0x8bbeb8ea, 0xfcb9887c, 0x62dd1ddf, 0x15da2d49, 0x8cd37cf3, 0xfbd44c65]
  const ROW6: seq<bv32> := [
    0x4db26158, 0x3ab551ce, 0xa3bc0074, 0xd4bb30e2, 0x4adfa541, 0x3dd895d7, 0xa4d1c46d, 0xd3d6f4fb,
    0x4369e96a, 0x346ed9fc, 0xad678846, 0xda60b8d0, 0x44042d73, 0x33031de5, 0xaa0a4c5f, 0xdd0d7cc9]
  const ROW7: seq<bv32> := [
    0x5005713c, 0x270241aa, 0xbe0b1010, 0xc90c2086, 0x5768b525, 0x206f85b3, 0xb966d409, 0xce61e49f,
    0x5edef90e, 0x29d9c998, 0xb0d09822, 0xc7d7a8b4, 0x59b33d17, 0x2eb40d81, 0xb7bd5c3b, 0xc0ba6cad]
  const ROW8: seq<bv32> := [
    0xedb88320, 0x9abfb3b6, 0x03b6e20c, 0x74b1d29a, 0xead54739, 0x9dd277af, 0x04db2615, 0x73dc1683,
    0xe3630b12, 0x94643b84, 0x0d6d6a3e, 0x7a6a5aa8, 0xe40ecf0b, 0x9309ff9d, 0x0a00ae27, 0x7d079eb1]
  const ROW9: seq<bv32> := [
    0xf00f9344, 0x8708a3d2, 0x1e01f268, 0x6906c2fe, 0xf762575d, 0x806567cb, 0x196c3671, 0x6e6b06e7,
    0xfed41b76, 0x89d32be0, 0x10da7a5a, 0x67dd4acc, 0xf9b9df6f, 0x8ebeeff9, 0x17b7be43, 0x60b08ed5]
  const ROW10: seq<bv32> := [
    0xd6d6a3e8, 0xa1d1937e, 0x38d8c2c4, 0x4fdff252, 0xd1bb67f1, 0xa6bc5767, 0x3fb506dd, 0x48b2364b,
    0xd80d2bda, 0xaf0a1b4c, 0x36034af6, 0x41047a60, 0xdf60efc3, 0xa867df55, 0x316e8eef, 0x4669be79]
  const ROW11: seq<bv32> := [
    0xcb61b38c, 0xbc66831a, 0x256fd2a0, 0x5268e236, 0xcc0c7795, 0xbb0b4703, 0x220216b9, 0x5505262f,
    0xc5ba3bbe, 0xb2bd0b28, 0x2bb45a92, 0x5cb36a04, 0xc2d7ffa7, 0xb5d0cf31, 0x2cd99e8b, 0x5bdeae1d]
  const ROW12: seq<bv32> := [
    0x9b64c2b0, 0xec63f226, 0x756aa39c, 0x026d930a, 0x9c0906a9, 0xeb0e363f, 0x72076785, 0x05005713,
    0x95bf4a82, 0xe2b87a14, 0x7bb12bae, 0x0cb61b38, 0x92d28e9b, 0xe5d5be0d, 0x7cdcefb7, 0x0bdbdf21]
  const ROW13: seq<bv32> := [
    0x86d3d2d4, 0xf1d4e242, 0x68ddb3f8, 0x1fda836e, 0x81be16cd, 0xf6b9265b, 0x6fb077e1, 0x18b74777,
    0x88085ae6, 0xff0f6a70, 0x66063bca, 0x11010b5c, 0x8f659eff, 0xf862ae69, 0x616bffd3, 0x166ccf45]
  const ROW14: seq<bv32> := [
    0xa00ae278, 0xd70dd2ee, 0x4e048354, 0x3903b3c2, 0xa7672661, 0xd06016f7, 0x4969474d, 0x3e6e77db,
    0xaed16a4a, 0xd9d65adc, 0x40df0b66, 0x37d83bf0, 0xa9bcae53, 0xdebb9ec5, 0x47b2cf7f, 0x30b5ffe9]
  const ROW15: seq<bv32> := [
    0xbdbdf21c, 0xcabac28a, 0x53b39330, 0x24b4a3a6, 0xbad03605, 0xcdd70693, 0x54de5729, 0x23d967bf,
    0xb3667a2e, 0xc4614ab8, 0x5d681b02, 0x2a6f2b94, 0xb40bbe37, 0xc30c8ea1, 0x5a05df1b, 0x2d02ef8d]

  function Row(k: int): seq<bv32>
    requires 0 <= k < 16
  {
    match k
    case 0 => ROW0 case 1 => ROW1 case 2 => ROW2 case 3 => ROW3
    case 4 => ROW4 case 5 => ROW5 case 6 => ROW6 case 7 => ROW7
    case 8 => ROW8 case 9 => ROW9 case 10 => ROW10 case 11 => ROW11
    case 12 => ROW12 case 13 => ROW13 case 14 => ROW14 case _ => ROW15
  }

  function Rows(n: nat): seq<bv32>
    requires n <= 16
  {
    if n == 0 then [] else Rows(n - 1) + Row(n - 1)
  }

  /** The sixteen rows of sixteen, one after the other. */
  const TABLE256: seq<bv32> := Rows(16)

  // ---------- steps are linear ----------

  lemma XorOdd(a: bv32, b: bv32)
    ensures Odd(Xor(a, b)) <==> Odd(a) != Odd(b)
    ensures Half(Xor(a, b)) == Xor(Half(a), Half(b))
  {
  }

  lemma XorAssoc(x: bv32, y: bv32, z: bv32)
    ensures Xor(Xor(x, y), z) == Xor(x, Xor(y, z))
  {
  }

  lemma XorSwap(x: bv32, y: bv32)
    ensures Xor(x, y) == Xor(y, x) && Xor(x, 0) == x && Xor(x, x) == 0
  {
  }

  lemma XorCancel(x: bv32, y: bv32, p: bv32)
    ensures Xor(Xor(x, p), Xor(y, p)) == Xor(x, y)
  {
    hide Xor;
    XorSwap(y, p);
    XorAssoc(Xor(x, p), p, y);
    XorAssoc(x, p, p);
    XorSwap(p, p);
    XorSwap(x, x);
  }

  lemma StepLinear(a: bv32, b: bv32)
    ensures Step(Xor(a, b)) == Xor(Step(a), Step(b))
  {
    hide Xor, Half, Odd, POLYNOMIAL;
    XorOdd(a, b);
    var x, y, p := Half(a), Half(b), POLYNOMIAL;
    XorCancel(x, y, p);
    XorAssoc(x, y, p);
    XorAssoc(x, p, y);
    XorSwap(p, y);
  }

  function Steps(c: bv32, n: nat): bv32
    decreases n
  {
    if n == 0 then c else Steps(Step(c), n - 1)
  }

  lemma {:induction false} StepsLinear(a: bv32, b: bv32, n: nat)
    ensures Steps(Xor(a, b), n) == Xor(Steps(a, n), Steps(b, n))
    decreases n
  {
    hide Xor, Step;
    if n > 0 {
      StepLinear(a, b);
      StepsLinear(Step(a), Step(b), n - 1);
    }
  }

  lemma {:induction false} StepsAdd(c: bv32, m: nat, n: nat)
    ensures Steps(c, m + n) == Steps(Steps(c, m), n)
    decreases m
  {
    hide Step;
    if m > 0 { StepsAdd(Step(c), m - 1, n); }
  }

  /** All but the lowest bit shift through unchanged. */
  lemma StepSplit(b: bv32)
    ensures b == Xor(if Odd(b) then 1 else 0, Clear(b)) && Step(Clear(b)) == Half(b)
  {
  }

  /** The value without its lowest bit. */
  function Clear(b: bv32): bv32 { b & 0xfffffffe }

  predicate Below(b: bv32, n: nat) { if n == 0 then b == 0 else Below(Half(b), n - 1) }

  /** Feeding `n` bits one at a time is adding them all and making `n` steps. */
  lemma {:induction false} FeedLow(c: bv32, b: bv32, n: nat)
    requires Below(b, n)
    ensures FeedBits(c, LowBits(b, n)) == Steps(Xor(c, b), n)
    decreases n
  {
    hide Xor, Half, Odd, Step, Clear;
    if n == 0 {
      XorSwap(c, c);
    } else {
      var bit := if Odd(b) then 1 else 0;
      var d := Step(Xor(c, bit));
      StepSplit(b);
      XorAssoc(c, bit, Clear(b));
      StepLinear(Xor(c, bit), Clear(b));
      FeedLow(d, Half(b), n - 1);
      XorSwap(c, c);
    }
  }

  // ---------- the tables hold what four and eight steps make of an index ----------

  predicate Nibble(i: bv32) { i <= 15 }

  function FourSteps(c: bv32): bv32 { Step(Step(Step(Step(c)))) }

  lemma FourIs(c: bv32)
    ensures Steps(c, 4) == FourSteps(c)
  {
    hide Step;
    assert Steps(c, 4) == Steps(Step(Step(c)), 2);
  }

  lemma Table16Is(i: bv32)
    requires Nibble(i)
    ensures i as int < |TABLE16| && TABLE16[i as int] == FourSteps(i)
  {
    assert i == 0 || i == 1 || i == 2 || i == 3 || i == 4 || i == 5 || i == 6 || i == 7 || i == 8 || i == 9 || i == 10
      || i == 11 || i == 12 || i == 13 || i == 14 || i == 15;
  }

  lemma RowLength(k: int)
    requires 0 <= k < 16
    ensures |Row(k)| == 16
  {
  }

  lemma {:induction false} RowsAt(n: nat, k: int, l: int)
    requires 0 <= k < n <= 16 && 0 <= l < 16
    ensures |Rows(n)| == 16 * n && |Row(k)| == 16 && Rows(n)[16 * k + l] == Row(k)[l]
  {
    hide Row;
    RowLength(k);
    RowLength(n - 1);
    if k < n - 1 { RowsAt(n - 1, k, l); } else if n > 1 { RowsAt(n - 1, 0, 0); }
  }

  /** Row `r` is the first row `q` shifted by its own first value. */
  predicate Shifted(r: seq<bv32>, q: seq<bv32>) {
    |r| == |q| == 16
    && r[0] == Xor(r[0], q[0]) && r[1] == Xor(r[0], q[1]) && r[2] == Xor(r[0], q[2]) && r[3] == Xor(r[0], q[3])
    && r[4] == Xor(r[0], q[4]) && r[5] == Xor(r[0], q[5]) && r[6] == Xor(r[0], q[6]) && r[7] == Xor(r[0], q[7])
    && r[8] == Xor(r[0], q[8]) && r[9] == Xor(r[0], q[9]) && r[10] == Xor(r[0], q[10]) && r[11] == Xor(r[0], q[11])
    && r[12] == Xor(r[0], q[12]) && r[13] == Xor(r[0], q[13]) && r[14] == Xor(r[0], q[14]) && r[15] == Xor(r[0], q[15])
  }

  lemma ZeroXor()
    ensures forall c: bv32 :: Xor(0, c) == c
  {
  }

  lemma ShiftedFrom1()
    ensures Shifted(ROW1, ROW0) && Shifted(ROW2, ROW0) && Shifted(ROW3, ROW0)
  {
  }

  lemma ShiftedSelf()
    ensures Shifted(ROW0, ROW0)
  {
    hide Xor;
    ZeroXor();
  }

  lemma ShiftedFrom4()
    ensures Shifted(ROW4, ROW0) && Shifted(ROW5, ROW0) && Shifted(ROW6, ROW0) && Shifted(ROW7, ROW0)
  {
  }

  lemma ShiftedFrom8()
    ensures Shifted(ROW8, ROW0) && Shifted(ROW9, ROW0) && Shifted(ROW10, ROW0) && Shifted(ROW11, ROW0)
  {
  }

  lemma ShiftedFrom12()
    ensures Shifted(ROW12, ROW0) && Shifted(ROW13, ROW0) && Shifted(ROW14, ROW0) && Shifted(ROW15, ROW0)
  {
  }

  lemma ShiftedAt(r: seq<bv32>, q: seq<bv32>, l: int)
    requires Shifted(r, q) && 0 <= l < 16
    ensures r[l] == Xor(r[0], q[l])
  {
    hide Xor;
    assert l == 0 || l == 1 || l == 2 || l == 3 || l == 4 || l == 5 || l == 6 || l == 7 || l == 8 || l == 9 || l == 10
      || l == 11 || l == 12 || l == 13 || l == 14 || l == 15;
  }

  lemma RowShifted(k: int)
    requires 0 <= k < 16
    ensures Shifted(Row(k), ROW0)
  {
    hide Shifted, ROW0, ROW1, ROW2, ROW3, ROW4, ROW5, ROW6, ROW7, ROW8, ROW9, ROW10, ROW11, ROW12, ROW13, ROW14, ROW15;
    ShiftedSelf();
    ShiftedFrom1();
    ShiftedFrom4();
    ShiftedFrom8();
    ShiftedFrom12();
  }

  lemma RowHead(k: int)
    requires 0 <= k < 16
    ensures |Row(k)| == |TABLE16| == 16 && Row(k)[0] == TABLE16[k]
  {
  }

  /** The first row holds eight steps of a nibble. */
  lemma FirstRowIs(i: bv32)
    requires Nibble(i)
    ensures |ROW0| == 16 && i as int < 16 && ROW0[i as int] == FourSteps(FourSteps(i))
  {
    assert i == 0 || i == 1 || i == 2 || i == 3 || i == 4 || i == 5 || i == 6 || i == 7 || i == 8 || i == 9 || i == 10
      || i == 11 || i == 12 || i == 13 || i == 14 || i == 15;
  }

  /** The upper and the lower nibble of a byte. */
  lemma Nibbles(i: bv32)
    requires i <= 255
    ensures Nibble(High(i)) && Nibble(Low(i)) && i == Xor(Up(High(i)), Low(i))
    ensures i as int == 16 * (High(i) as int) + (Low(i) as int) && 0 <= High(i) as int < 16 && 0 <= Low(i) as int < 16
  {
  }

  function High(i: bv32): bv32 { i >> 4 }

  function Low(i: bv32): bv32 { i & 0xf }

  function Up(i: bv32): bv32 { i << 4 }

  lemma FourStepsUp(i: bv32)
    requires Nibble(i)
    ensures FourSteps(Up(i)) == i
  {
  }

  lemma EightIs(c: bv32)
    ensures Steps(c, 8) == FourSteps(FourSteps(c))
  {
    hide Step, FourSteps;
    FourIs(c);
    FourIs(FourSteps(c));
    StepsAdd(c, 4, 4);
  }

  /** Entry `i` of the big table is what eight steps make of `i`. */
  lemma Table256Is(i: bv32)
    requires i <= 255
    ensures |TABLE256| == 256 && i as int < 256 && TABLE256[i as int] == Steps(i, 8)
  {
    hide Xor, Step, FourSteps, High, Low, Up, Row, ROW0, TABLE16, Shifted, Nibble, Rows;
    var h, l := High(i), Low(i);
    Nibbles(i);
    RowsAt(16, h as int, l as int);
    RowShifted(h as int);
    ShiftedAt(Row(h as int), ROW0, l as int);
    RowHead(h as int);
    Table16Is(h);
    FirstRowIs(l);
    FourStepsUp(h);
    EightIs(Up(h));
    EightIs(l);
    StepsLinear(Up(h), l, 8);
  }

  // ---------- one byte ----------

  lemma {:induction false} FourLinear(a: bv32, b: bv32)
    ensures FourSteps(Xor(a, b)) == Xor(FourSteps(a), FourSteps(b))
  {
    hide Xor, FourSteps;
    FourIs(a);
    FourIs(b);
    FourIs(Xor(a, b));
    StepsLinear(a, b, 4);
  }

  function Shift4(c: bv32): bv32 { c >> 4 }

  function Shift8(c: bv32): bv32 { c >> 8 }

  lemma Halves4(c: bv32)
    ensures c == Xor(Up(Shift4(c)), Low(c)) && Nibble(Low(c)) && FourSteps(Up(Shift4(c))) == Shift4(c)
  {
  }

  /** Four steps by the small table. */
  lemma FourByTable(c: bv32)
    ensures Low(c) as int < |TABLE16| && FourSteps(c) == Xor(TABLE16[Low(c) as int], Shift4(c))
  {
    hide Xor, FourSteps, Low, Up, Shift4, TABLE16, Nibble;
    Halves4(c);
    Table16Is(Low(c));
    FourLinear(Up(Shift4(c)), Low(c));
    XorSwap(Shift4(c), TABLE16[Low(c) as int]);
  }

  function Up8(c: bv32): bv32 { c << 8 }

  function Byte(c: bv32): bv32 { c & 0xff }

  lemma Halves8(c: bv32)
    ensures c == Xor(Up8(Shift8(c)), Byte(c)) && Byte(c) <= 255 && FourSteps(FourSteps(Up8(Shift8(c)))) == Shift8(c)
  {
  }

  /** Eight steps by the big table. */
  lemma EightByTable(c: bv32)
    ensures Byte(c) as int < |TABLE256| && Steps(c, 8) == Xor(TABLE256[Byte(c) as int], Shift8(c))
  {
    hide Xor, FourSteps, Byte, Up8, Shift8, TABLE256, Steps;
    Halves8(c);
    Table256Is(Byte(c));
    EightIs(Up8(Shift8(c)));
    StepsLinear(Up8(Shift8(c)), Byte(c), 8);
    XorSwap(Shift8(c), TABLE256[Byte(c) as int]);
  }

  function Wide(b: bv8): bv32 { b as bv32 }

  lemma EightHalves(b: bv8)
    ensures Half(Half(Half(Half(Half(Half(Half(Half(Wide(b))))))))) == 0
  {
  }

  lemma BelowTwice(x: bv32, n: nat)
    requires Below(Half(Half(x)), n)
    ensures Below(x, n + 2)
  {
    hide Half;
    assert Below(Half(x), n + 1);
  }

  lemma ByteBelow(b: bv8)
    ensures Below(Wide(b), 8)
  {
    hide Half, Wide;
    EightHalves(b);
    var x2 := Half(Half(Wide(b)));
    var x4 := Half(Half(x2));
    BelowTwice(Half(Half(x4)), 0);
    BelowTwice(x4, 2);
    BelowTwice(x2, 4);
    BelowTwice(Wide(b), 6);
  }

  /** What the byte table makes of a byte is what the definition makes of its bits. */
  lemma ByteIs(c: bv32, b: bv8)
    ensures Byte(Xor(c, Wide(b))) as int < |TABLE256|
    ensures FeedBits(c, LowBits(Wide(b), 8)) == Xor(TABLE256[Byte(Xor(c, Wide(b))) as int], Shift8(c))
  {
    hide Below, Steps, Byte, TABLE256, FeedBits, LowBits;
    ByteBelow(b);
    FeedLow(c, Wide(b), 8);
    EightByTable(Xor(c, Wide(b)));
    assert Shift8(Xor(c, Wide(b))) == Shift8(c);
  }

  function LowNibble(b: bv8): bv32 { Low(Wide(b)) }

  function HighNibble(b: bv8): bv32 { High(Wide(b)) }

  lemma ByteNibbles(b: bv8)
    ensures Wide(b) == Xor(LowNibble(b), Up(HighNibble(b))) && Nibble(LowNibble(b)) && Nibble(HighNibble(b))
  {
  }

  lemma NibbleShifts(c: bv32, n: bv32)
    requires Nibble(n)
    ensures Shift4(Xor(c, n)) == Shift4(c)
  {
  }

  /** The nibble table's two steps. */
  lemma NibblesIs(c: bv32, b: bv8, d: bv32, e: bv32)
    requires var i := Low(Xor(c, LowNibble(b))) as int; i < |TABLE16| && d == Xor(TABLE16[i], Shift4(c))
    requires var j := Low(Xor(d, HighNibble(b))) as int; j < |TABLE16| && e == Xor(TABLE16[j], Shift4(d))
    ensures e == FeedBits(c, LowBits(Wide(b), 8))
  {
    hide Below, Steps, Low, TABLE16, FeedBits, LowBits, FourSteps, Xor, Up, Shift4, LowNibble, HighNibble, Nibble, Wide;
    var lo, hi := LowNibble(b), HighNibble(b);
    ByteNibbles(b);
    NibbleShifts(c, lo);
    NibbleShifts(d, hi);
    XorAssoc(c, lo, Up(hi));
    FourByTable(Xor(c, lo));
    FourByTable(Xor(d, hi));
    FourStepsUp(hi);
    FourLinear(Xor(c, lo), Up(hi));
    EightIs(Xor(c, Wide(b)));
    ByteBelow(b);
    FeedLow(c, Wide(b), 8);
  }

  // ---------- byte sequences ----------

  /** The register after the bytes `p`. */
  function FeedBytes(c: bv32, p: seq<bv8>): bv32 { FeedBits(c, BitsOf(p)) }

  lemma {:induction false} FeedBitsAdd(c: bv32, s: seq<bool>, t: seq<bool>)
    ensures FeedBits(c, s + t) == FeedBits(FeedBits(c, s), t)
    decreases |s|
  {
    hide FeedBit;
    if s == [] {
      assert s + t == t;
    } else {
      assert (s + t)[1..] == s[1..] + t;
      FeedBitsAdd(FeedBit(c, s[0]), s[1..], t);
    }
  }

  lemma {:induction false} BitsAdd(p: seq<bv8>, q: seq<bv8>)
    ensures BitsOf(p + q) == BitsOf(p) + BitsOf(q)
  {
    hide LowBits;
    if p == [] {
      assert p + q == q;
    } else {
      assert (p + q)[1..] == p[1..] + q;
      BitsAdd(p[1..], q);
    }
  }

  /** Pieces may be fed one after the other. */
  lemma FeedAdd(c: bv32, p: seq<bv8>, q: seq<bv8>)
    ensures FeedBytes(c, p + q) == FeedBytes(FeedBytes(c, p), q)
  {
    BitsAdd(p, q);
    FeedBitsAdd(c, BitsOf(p), BitsOf(q));
  }

  lemma OneByte(b: bv8)
    ensures BitsOf([b]) == LowBits(Wide(b), 8)
  {
    hide LowBits;
    assert [b][1..] == [];
    assert LowBits(Wide(b), 8) + [] == LowBits(Wide(b), 8);
  }

  lemma FeedLast(c: bv32, p: seq<bv8>, n: nat)
    requires n < |p|
    ensures FeedBytes(c, p[..n + 1]) == FeedBits(FeedBytes(c, p[..n]), LowBits(Wide(p[n]), 8))
  {
    hide FeedBits, LowBits;
    assert p[..n + 1] == p[..n] + [p[n]];
    FeedAdd(c, p[..n], [p[n]]);
    OneByte(p[n]);
  }

  // ---------- the program ----------

  /** ngx_crc32_long */
  method CrcLong(p: array<bv8>, len: nat) returns (crc: bv32)
    requires len <= p.Length
    ensures crc == Crc(p[..len])
  {
    hide Byte, Shift8, TABLE256, FeedBits, LowBits, BitsOf, Wide;
    crc := 0xffffffff;
    FeedNothing(crc);
    var n := 0;
    while n < len
      invariant 0 <= n <= len && crc == FeedBytes(0xffffffff, p[..len][..n])
    {
      ByteIs(crc, p[n]);
      FeedLast(0xffffffff, p[..len], n);
      crc := Xor(TABLE256[Byte(Xor(crc, Wide(p[n]))) as int], Shift8(crc));
      n := n + 1;
    }
    assert p[..len][..n] == p[..len];
    crc := Xor(crc, 0xffffffff);
  }

  lemma FeedNothing(c: bv32)
    ensures FeedBytes(c, []) == c
  {
  }

  /** ngx_crc32_init, ngx_crc32_update and ngx_crc32_final, with the running value in an object. */
  class Running {
    var crc: bv32

    /** ngx_crc32_init */
    constructor ()
      ensures crc == 0xffffffff
    {
      crc := 0xffffffff;
    }

    /** ngx_crc32_update */
    method Update(p: array<bv8>, len: nat)
      requires len <= p.Length
      modifies this
      ensures crc == FeedBytes(old(crc), p[..len])
    {
      hide Byte, Shift8, TABLE256, FeedBits, LowBits, BitsOf, Wide;
      var c := crc;
      FeedNothing(c);
      var n := 0;
      while n < len
        invariant 0 <= n <= len && c == FeedBytes(old(crc), p[..len][..n])
      {
        ByteIs(c, p[n]);
        FeedLast(old(crc), p[..len], n);
        c := Xor(TABLE256[Byte(Xor(c, Wide(p[n]))) as int], Shift8(c));
        n := n + 1;
      }
      assert p[..len][..n] == p[..len];
      crc := c;
    }

    /** ngx_crc32_final */
    method Final()
      modifies this
      ensures crc == Xor(old(crc), 0xffffffff)
    {
      crc := Xor(crc, 0xffffffff);
    }
  }

  /** The pieces joined. */
  ghost function Joined(ps: seq<array<bv8>>): seq<bv8>
    reads ps
  {
    if ps == [] then [] else Joined(ps[..|ps| - 1]) + ps[|ps| - 1][..]
  }

  lemma JoinNext(ps: seq<array<bv8>>, i: nat)
    requires i <= |ps|
    ensures Joined(ps[..0]) == [] && (i < |ps| ==> Joined(ps[..i + 1]) == Joined(ps[..i]) + ps[i][..])
  {
    if i < |ps| { assert ps[..i + 1][..i] == ps[..i]; }
  }

  /** However a message is cut into pieces, init, one update per piece, and final give its CRC. */
  method CrcPieces(ps: seq<array<bv8>>) returns (crc: bv32)
    ensures crc == Crc(Joined(ps))
  {
    hide FeedBits, BitsOf, Joined, FeedBytes;
    var run := new Running();
    JoinNext(ps, 0);
    FeedNothing(0xffffffff);
    for i := 0 to |ps|
      invariant fresh(run) && run.crc == FeedBytes(0xffffffff, Joined(ps[..i]))
    {
      JoinNext(ps, i);
      FeedAdd(0xffffffff, Joined(ps[..i]), ps[i][..]);
      assert ps[i][..ps[i].Length] == ps[i][..];
      run.Update(ps[i], ps[i].Length);
    }
    assert ps[..|ps|] == ps;
    run.Final();
    crc := run.crc;
    FeedDefines(Joined(ps));
  }

  lemma FeedDefines(p: seq<bv8>)
    ensures Crc(p) == Xor(FeedBytes(0xffffffff, p), 0xffffffff)
  {
  }

  /** ngx_crc32_table_short and the routine that uses it. */
  class ShortTable {
    var table: array<bv32>

    ghost predicate Valid()
      reads this, table
    {
      table[..] == TABLE16
    }

    /** At first the routine uses the constant table itself. */
    constructor ()
      ensures Valid()
    {
      table := new bv32[|TABLE16|](i requires 0 <= i < |TABLE16| => TABLE16[i]);
    }

    /** ngx_crc32_table_init: a copy of the table, if there is memory for one. */
    method TableInit(memory: bool) returns (rc: int)
      requires Valid()
      modifies this
      ensures Valid() && rc == if memory then 0 else -1
      ensures if memory then fresh(table) else table == old(table)
    {
      if !memory { return -1; }
      table := new bv32[|TABLE16|](i requires 0 <= i < |TABLE16| => TABLE16[i]);
      return 0;
    }

    /** ngx_crc32_short */
    method CrcShort(p: array<bv8>, len: nat) returns (crc: bv32)
      requires Valid() && len <= p.Length
      ensures crc == Crc(p[..len])
    {
      hide FeedBits, LowBits, BitsOf, Low, LowNibble, HighNibble, Shift4, Xor, FourSteps;
      crc := 0xffffffff;
      FeedNothing(crc);
      var n := 0;
      while n < len
        invariant 0 <= n <= len && crc == FeedBytes(0xffffffff, p[..len][..n])
      {
        var c := p[n];
        FourByTable(Xor(crc, LowNibble(c)));
        FeedLast(0xffffffff, p[..len], n);
        var d := Xor(table[Low(Xor(crc, LowNibble(c))) as int], Shift4(crc));
        FourByTable(Xor(d, HighNibble(c)));
        var e := Xor(table[Low(Xor(d, HighNibble(c))) as int], Shift4(d));
        NibblesIs(crc, c, d, e);
        crc := e;
        n := n + 1;
      }
      assert p[..len][..n] == p[..len];
      crc := Xor(crc, 0xffffffff);
    }
  }
}
