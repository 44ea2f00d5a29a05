/** The table-driven CRC-32 checksum, and the bit-by-bit one of section 8 of RFC 1952. */
module Crc32 {

  // ----- the table of the program, sixteen entries to a row -----

  function Row0(k: bv4): bv32 {
    match k
    case 0 => 0x00000000 case 1 => 0x77073096 case 2 => 0xee0e612c case 3 => 0x990951ba
    case 4 => 0x076dc419 case 5 => 0x706af48f case 6 => 0xe963a535 case 7 => 0x9e6495a3
    case 8 => 0x0edb8832 case 9 => 0x79dcb8a4 case 10 => 0xe0d5e91e case 11 => 0x97d2d988
    case 12 => 0x09b64c2b case 13 => 0x7eb17cbd case 14 => 0xe7b82d07 case 15 => 0x90bf1d91
  }

  function Row1(k: bv4): bv32 {
    match k
    case 0 => 0x1db71064 case 1 => 0x6ab020f2 case 2 => 0xf3b97148 case 3 => 0x84be41de
    case 4 => 0x1adad47d case 5 => 0x6ddde4eb case 6 => 0xf4d4b551 case 7 => 0x83d385c7
    case 8 => 0x136c9856 case 9 => 0x646ba8c0 case 10 => 0xfd62f97a case 11 => 0x8a65c9ec
    case 12 => 0x14015c4f case 13 => 0x63066cd9 case 14 => 0xfa0f3d63 case 15 => 0x8d080df5
  }

  function Row2(k: bv4): bv32 {
    match k
    case 0 => 0x3b6e20c8 case 1 => 0x4c69105e case 2 => 0xd56041e4 case 3 => 0xa2677172
    case 4 => 0x3c03e4d1 case 5 => 0x4b04d447 case 6 => 0xd20d85fd case 7 => 0xa50ab56b
    case 8 => 0x35b5a8fa case 9 => 0x42b2986c case 10 => 0xdbbbc9d6 case 11 => 0xacbcf940
    case 12 => 0x32d86ce3 case 13 => 0x45df5c75 case 14 => 0xdcd60dcf case 15 => 0xabd13d59
  }

  function Row3(k: bv4): bv32 {
    match k
    case 0 => 0x26d930ac case 1 => 0x51de003a case 2 => 0xc8d75180 case 3 => 0xbfd06116
    case 4 => 0x21b4f4b5 case 5 => 0x56b3c423 case 6 => 0xcfba9599 case 7 => 0xb8bda50f
    case 8 => 0x2802b89e case 9 => 0x5f058808 case 10 => 0xc60cd9b2 case 11 => 0xb10be924
    case 12 => 0x2f6f7c87 case 13 => 0x58684c11 case 14 => 0xc1611dab case 15 => 0xb6662d3d
  }

  function Row4(k: bv4): bv32 {
    match k
    case 0 => 0x76dc4190 case 1 => 0x01db7106 case 2 => 0x98d220bc case 3 => 0xefd5102a
    case 4 => 0x71b18589 case 5 => 0x06b6b51f case 6 => 0x9fbfe4a5 case 7 => 0xe8b8d433
    case 8 => 0x7807c9a2 case 9 => 0x0f00f934 case 10 => 0x9609a88e case 11 => 0xe10e9818
    case 12 => 0x7f6a0dbb case 13 => 0x086d3d2d case 14 => 0x91646c97 case 15 => 0xe6635c01
  }

  function Row5(k: bv4): bv32 {
    match k
    case 0 => 0x6b6b51f4 case 1 => 0x1c6c6162 case 2 => 0x856530d8 case 3 => 0xf262004e
    case 4 => 0x6c0695ed case 5 => 0x1b01a57b case 6 => 0x8208f4c1 case 7 => 0xf50fc457
    case 8 => 0x65b0d9c6 case 9 => 0x12b7e950 case 10 => 0x8bbeb8ea case 11 => 0xfcb9887c
    case 12 => 0x62dd1ddf case 13 => 0x15da2d49 case 14 => 0x8cd37cf3 case 15 => 0xfbd44c65
  }

  function Row6(k: bv4): bv32 {
    match k
    case 0 => 0x4db26158 case 1 => 0x3ab551ce case 2 => 0xa3bc0074 case 3 => 0xd4bb30e2
    case 4 => 0x4adfa541 case 5 => 0x3dd895d7 case 6 => 0xa4d1c46d case 7 => 0xd3d6f4fb
    case 8 => 0x4369e96a case 9 => 0x346ed9fc case 10 => 0xad678846 case 11 => 0xda60b8d0
    case 12 => 0x44042d73 case 13 => 0x33031de5 case 14 => 0xaa0a4c5f case 15 => 0xdd0d7cc9
  }

  function Row7(k: bv4): bv32 {
    match k
    case 0 => 0x5005713c case 1 => 0x270241aa case 2 => 0xbe0b1010 case 3 => 0xc90c2086
    case 4 => 0x5768b525 case 5 => 0x206f85b3 case 6 => 0xb966d409 case 7 => 0xce61e49f
    case 8 => 0x5edef90e case 9 => 0x29d9c998 case 10 => 0xb0d09822 case 11 => 0xc7d7a8b4
    case 12 => 0x59b33d17 case 13 => 0x2eb40d81 case 14 => 0xb7bd5c3b case 15 => 0xc0ba6cad
  }

  function Row8(k: bv4): bv32 {
    match k
    case 0 => 0xedb88320 case 1 => 0x9abfb3b6 case 2 => 0x03b6e20c case 3 => 0x74b1d29a
    case 4 => 0xead54739 case 5 => 0x9dd277af case 6 => 0x04db2615 case 7 => 0x73dc1683
    case 8 => 0xe3630b12 case 9 => 0x94643b84 case 10 => 0x0d6d6a3e case 11 => 0x7a6a5aa8
    case 12 => 0xe40ecf0b case 13 => 0x9309ff9d case 14 => 0x0a00ae27 case 15 => 0x7d079eb1
  }

  function Row9(k: bv4): bv32 {
    match k
    case 0 => 0xf00f9344 case 1 => 0x8708a3d2 case 2 => 0x1e01f268 case 3 => 0x6906c2fe
    case 4 => 0xf762575d case 5 => 0x806567cb case 6 => 0x196c3671 case 7 => 0x6e6b06e7
    case 8 => 0xfed41b76 case 9 => 0x89d32be0 case 10 => 0x10da7a5a case 11 => 0x67dd4acc
    case 12 => 0xf9b9df6f case 13 => 0x8ebeeff9 case 14 => 0x17b7be43 case 15 => 0x60b08ed5
  }

  function RowA(k: bv4): bv32 {
    match k
    case 0 => 0xd6d6a3e8 case 1 => 0xa1d1937e case 2 => 0x38d8c2c4 case 3 => 0x4fdff252
    case 4 => 0xd1bb67f1 case 5 => 0xa6bc5767 case 6 => 0x3fb506dd case 7 => 0x48b2364b
    case 8 => 0xd80d2bda case 9 => 0xaf0a1b4c case 10 => 0x36034af6 case 11 => 0x41047a60
    case 12 => 0xdf60efc3 case 13 => 0xa867df55 case 14 => 0x316e8eef case 15 => 0x4669be79
  }

  function RowB(k: bv4): bv32 {
    match k
    case 0 => 0xcb61b38c case 1 => 0xbc66831a case 2 => 0x256fd2a0 case 3 => 0x5268e236
    case 4 => 0xcc0c7795 case 5 => 0xbb0b4703 case 6 => 0x220216b9 case 7 => 0x5505262f
    case 8 => 0xc5ba3bbe case 9 => 0xb2bd0b28 case 10 => 0x2bb45a92 case 11 => 0x5cb36a04
    case 12 => 0xc2d7ffa7 case 13 => 0xb5d0cf31 case 14 => 0x2cd99e8b case 15 => 0x5bdeae1d
  }

  function RowC(k: bv4): bv32 {
    match k
    case 0 => 0x9b64c2b0 case 1 => 0xec63f226 case 2 => 0x756aa39c case 3 => 0x026d930a
    case 4 => 0x9c0906a9 case 5 => 0xeb0e363f case 6 => 0x72076785 case 7 => 0x05005713
    case 8 => 0x95bf4a82 case 9 => 0xe2b87a14 case 10 => 0x7bb12bae case 11 => 0x0cb61b38
    case 12 => 0x92d28e9b case 13 => 0xe5d5be0d case 14 => 0x7cdcefb7 case 15 => 0x0bdbdf21
  }

  function RowD(k: bv4): bv32 {
    match k
    case 0 => 0x86d3d2d4 case 1 => 0xf1d4e242 case 2 => 0x68ddb3f8 case 3 => 0x1fda836e
    case 4 => 0x81be16cd case 5 => 0xf6b9265b case 6 => 0x6fb077e1 case 7 => 0x18b74777
    case 8 => 0x88085ae6 case 9 => 0xff0f6a70 case 10 => 0x66063bca case 11 => 0x11010b5c
    case 12 => 0x8f659eff case 13 => 0xf862ae69 case 14 => 0x616bffd3 case 15 => 0x166ccf45
  }

  function RowE(k: bv4): bv32 {
    match k
    case 0 => 0xa00ae278 case 1 => 0xd70dd2ee case 2 => 0x4e048354 case 3 => 0x3903b3c2
    case 4 => 0xa7672661 case 5 => 0xd06016f7 case 6 => 0x4969474d case 7 => 0x3e6e77db
    case 8 => 0xaed16a4a case 9 => 0xd9d65adc case 10 => 0x40df0b66 case 11 => 0x37d83bf0
    case 12 => 0xa9bcae53 case 13 => 0xdebb9ec5 case 14 => 0x47b2cf7f case 15 => 0x30b5ffe9
  }

  function RowF(k: bv4): bv32 {
    match k
    case 0 => 0xbdbdf21c case 1 => 0xcabac28a case 2 => 0x53b39330 case 3 => 0x24b4a3a6
    case 4 => 0xbad03605 case 5 => 0xcdd70693 case 6 => 0x54de5729 case 7 => 0x23d967bf
    case 8 => 0xb3667a2e case 9 => 0xc4614ab8 case 10 => 0x5d681b02 case 11 => 0x2a6f2b94
    case 12 => 0xb40bbe37 case 13 => 0xc30c8ea1 case 14 => 0x5a05df1b case 15 => 0x2d02ef8d
  }

  function Table(i: bv8): bv32 {
    var k := (i & 0x0f) as bv4;
    match i >> 4
    case 0 => Row0(k) case 1 => Row1(k) case 2 => Row2(k) case 3 => Row3(k)
    case 4 => Row4(k) case 5 => Row5(k) case 6 => Row6(k) case 7 => Row7(k)
    case 8 => Row8(k) case 9 => Row9(k) case 10 => RowA(k) case 11 => RowB(k)
    case 12 => RowC(k) case 13 => RowD(k) case 14 => RowE(k) case _ => RowF(k)
  }

  // ----- the definition, bit by bit -----

  /** Shift out one bit, and subtract the polynomial if it was set. */
  function BitStep(c: bv32): bv32 {
    (c >> 1) ^ (if c & 1 == 1 then 0xedb88320 else 0)
  }

  function EightSteps(c: bv32): bv32 {
    BitStep(BitStep(BitStep(BitStep(BitStep(BitStep(BitStep(BitStep(c))))))))
  }

  /** The register after one more byte, bit by bit. */
  function FeedByte(c: bv32, b: bv8): bv32 {
    EightSteps(c ^ (b as bv32))
  }

  /** A machine that reads data item by item. */
  function Run<W, B>(step: (W, B) -> W, start: W, data: seq<B>): W {
    if data == [] then start else step(Run(step, start, data[..|data| - 1]), data[|data| - 1])
  }

  /** The register after data, which starts with all bits set. */
  function BitwiseCrc(data: seq<bv8>): bv32 {
    Run(FeedByte, 0xffffffff, data)
  }

  // ----- bit steps, seen from afar: the lemmas below take the step as a parameter -----

  function Xor(a: bv32, b: bv32): bv32 {
    a ^ b
  }

  function ShiftByte(c: bv32): bv32 {
    c >> 8
  }

  function LowByte(c: bv32): bv8 {
    (c & 0xff) as bv8
  }

  ghost predicate Linear<T(!new)>(f: T -> T, add: (T, T) -> T) {
    forall x, y :: f(add(x, y)) == add(f(x), f(y))
  }

  /** f shifts out what stands above the lowest eight bits. */
  ghost predicate Splits(f: bv32 -> bv32) {
    forall high: bv32, low: bv32 :: high & 0xff == 0 ==> f(Xor(high, low)) == Xor(ShiftByte(high), f(low))
  }

  lemma Parities(a: bv32, b: bv32)
    ensures (a ^ b) >> 1 == (a >> 1) ^ (b >> 1)
    ensures (a ^ b) & 1 == (a & 1) ^ (b & 1)
    ensures a & 1 == 0 || a & 1 == 1
  {
  }

  lemma Regrouped(x: bv32, y: bv32, p: bv32)
    ensures (x ^ p) ^ (y ^ p) == x ^ y
    ensures (x ^ p) ^ y == (x ^ y) ^ p && x ^ (y ^ p) == (x ^ y) ^ p
  {
  }

  lemma ShiftsAdd(a: bv32, b: bv32, x: bv32, y: bv32, z: bv32)
    requires x == if a & 1 == 1 then (a >> 1) ^ 0xedb88320 else a >> 1
    requires y == if b & 1 == 1 then (b >> 1) ^ 0xedb88320 else b >> 1
    requires z == if (a ^ b) & 1 == 1 then ((a ^ b) >> 1) ^ 0xedb88320 else (a ^ b) >> 1
    ensures z == x ^ y
  {
    Parities(a, b);
    Parities(b, a);
    Regrouped(a >> 1, b >> 1, 0xedb88320);
  }

  /** A bit step, by cases. */
  function StepByCase(c: bv32): bv32 {
    if c & 1 == 1 then (c >> 1) ^ 0xedb88320 else c >> 1
  }

  lemma StepByCaseLinear(a: bv32, b: bv32)
    ensures StepByCase(a ^ b) == StepByCase(a) ^ StepByCase(b)
  {
    ShiftsAdd(a, b, StepByCase(a), StepByCase(b), StepByCase(a ^ b));
  }

  lemma StepsByCaseLinear()
    ensures Linear(StepByCase, Xor)
  {
    forall x: bv32, y: bv32 ensures StepByCase(Xor(x, y)) == Xor(StepByCase(x), StepByCase(y)) {
      StepByCaseLinear(x, y);
    }
  }

  lemma NothingAdded(x: bv32)
    ensures x ^ 0 == x
  {
  }

  lemma SameStep(c: bv32)
    ensures BitStep(c) == StepByCase(c)
  {
    NothingAdded(c >> 1);
  }

  lemma SameIsLinear<T(!new)>(f: T -> T, g: T -> T, add: (T, T) -> T)
    requires Linear(g, add) && forall c :: f(c) == g(c)
    ensures Linear(f, add)
  {
  }

  /** A bit step is linear. */
  lemma BitStepsLinear()
    ensures Linear(BitStep, Xor)
  {
    StepsByCaseLinear();
    forall c ensures BitStep(c) == StepByCase(c) {
      SameStep(c);
    }
    SameIsLinear(BitStep, StepByCase, Xor);
  }

  /** Applying a linear function eight times is linear. */
  lemma EightTimesLinear<T(!new)>(f: T -> T, add: (T, T) -> T, a: T, b: T)
    requires Linear(f, add)
    ensures f(f(f(f(f(f(f(f(add(a, b))))))))) == add(f(f(f(f(f(f(f(f(a)))))))), f(f(f(f(f(f(f(f(b)))))))))
  {
  }

  /** Eight bit steps are linear. */
  lemma EightStepsLinear(a: bv32, b: bv32)
    ensures EightSteps(Xor(a, b)) == Xor(EightSteps(a), EightSteps(b))
  {
    BitStepsLinear();
    EightTimesLinear(BitStep, Xor, a, b);
  }

  /** Bits above the lowest eight are only shifted. */
  lemma HighBits(c: bv32)
    requires c & 0xff == 0
    ensures EightSteps(c) == ShiftByte(c)
  {
  }

  lemma EightStepsSplit()
    ensures Splits(EightSteps)
  {
    forall high: bv32, low: bv32 | high & 0xff == 0
      ensures EightSteps(Xor(high, low)) == Xor(ShiftByte(high), EightSteps(low))
    {
      EightStepsLinear(high, low);
      HighBits(high);
    }
  }

  // ----- one table step is eight bit steps -----

  lemma FirstHalfIsRight(i: bv8)
    requires i < 0x80
    ensures Table(i) == EightSteps(i as bv32)
  {
  }

  lemma SecondHalfIsRight(i: bv8)
    requires i >= 0x80
    ensures Table(i) == EightSteps(i as bv32)
  {
  }

  /** All 256 entries: each is eight bit steps on its index. */
  lemma TableIsRight(i: bv8)
    ensures Table(i) == EightSteps(i as bv32)
  {
    if i < 0x80 {
      FirstHalfIsRight(i);
    } else {
      SecondHalfIsRight(i);
    }
  }

  lemma Parts(c: bv32)
    ensures c == Xor(c & 0xffffff00, LowByte(c) as bv32)
    ensures (c & 0xffffff00) & 0xff == 0 && ShiftByte(c & 0xffffff00) == ShiftByte(c)
  {
  }

  lemma SameHigh(c: bv32, b: bv8)
    ensures ShiftByte(c ^ (b as bv32)) == ShiftByte(c)
  {
  }

  lemma TableSteps(f: bv32 -> bv32, t: bv8 -> bv32, c: bv32)
    requires Splits(f) && forall i :: t(i) == f(i as bv32)
    ensures Xor(ShiftByte(c), t(LowByte(c))) == f(c)
  {
    Parts(c);
    assert f(Xor(c & 0xffffff00, LowByte(c) as bv32)) == Xor(ShiftByte(c & 0xffffff00), f(LowByte(c) as bv32));
  }

  /** What the entry for the low byte does to the whole register. */
  lemma TableFeeds(c: bv32, b: bv8)
    ensures Xor(ShiftByte(c), Table(LowByte(c ^ (b as bv32)))) == FeedByte(c, b)
  {
    EightStepsSplit();
    forall i ensures Table(i) == EightSteps(i as bv32) {
      TableIsRight(i);
    }
    SameHigh(c, b);
    TableSteps(EightSteps, Table, c ^ (b as bv32));
  }

  // ----- four bytes that complement the register -----

  function ComplementByte(h: bv32): bv8 {
    ((h ^ 0xffffffff) & 0xff) as bv8
  }

  function NextConstant(k: bv32): bv32 {
    EightSteps(0xff ^ k)
  }

  lemma ComplementParts(h: bv32, k: bv32)
    ensures Xor(h, k) ^ (ComplementByte(h) as bv32) == Xor(h & 0xffffff00, 0xff ^ k)
    ensures (h & 0xffffff00) & 0xff == 0 && ShiftByte(h & 0xffffff00) == ShiftByte(h)
  {
  }

  /** Feeding the complement of the lowest byte of h shifts h, and turns what is mixed with it into something that
      does not depend on h. */
  ghost predicate Complements(step: (bv32, bv8) -> bv32, g: bv32 -> bv32) {
    forall h: bv32, k: bv32 :: step(Xor(h, k), ComplementByte(h)) == Xor(ShiftByte(h), g(k))
  }

  lemma SplitComplements(f: bv32 -> bv32, step: (bv32, bv8) -> bv32, g: bv32 -> bv32)
    requires Splits(f) && (forall c, b :: step(c, b) == f(c ^ (b as bv32))) && (forall k :: g(k) == f(0xff ^ k))
    ensures Complements(step, g)
  {
    forall h: bv32, k: bv32 ensures step(Xor(h, k), ComplementByte(h)) == Xor(ShiftByte(h), g(k)) {
      ComplementParts(h, k);
      assert f(Xor(h & 0xffffff00, 0xff ^ k)) == Xor(ShiftByte(h & 0xffffff00), f(0xff ^ k));
    }
  }

  lemma FeedComplements()
    ensures Complements(FeedByte, NextConstant)
  {
    EightStepsSplit();
    assert forall c, b :: FeedByte(c, b) == EightSteps(c ^ (b as bv32));
    assert forall k :: NextConstant(k) == EightSteps(0xff ^ k);
    SplitComplements(EightSteps, FeedByte, NextConstant);
  }

  lemma {:induction false} RunOneMore<W, B>(step: (W, B) -> W, start: W, data: seq<B>, b: B)
    ensures Run(step, start, data + [b]) == step(Run(step, start, data), b)
  {
    assert (data + [b])[..|data|] == data;
  }

  /** Four more items, each made of what is left of h, turn pair(h, k) into what does not depend on h. */
  lemma {:induction false} FourMore<W(!new), B(!new)>(step: (W, B) -> W, start: W, data: seq<B>, pair: (W, W) -> W,
                                                      shift: W -> W, byte: W -> B, g: W -> W, h: W, k: W)
    requires forall h, k :: step(pair(h, k), byte(h)) == pair(shift(h), g(k))
    requires Run(step, start, data) == pair(h, k)
    ensures Run(step, start, data + [byte(h), byte(shift(h)), byte(shift(shift(h))), byte(shift(shift(shift(h))))])
         == pair(shift(shift(shift(shift(h)))), g(g(g(g(k)))))
  {
    var b0, b1, b2, b3 := byte(h), byte(shift(h)), byte(shift(shift(h))), byte(shift(shift(shift(h))));
    RunOneMore(step, start, data, b0);
    RunOneMore(step, start, data + [b0], b1);
    RunOneMore(step, start, data + [b0] + [b1], b2);
    RunOneMore(step, start, data + [b0] + [b1] + [b2], b3);
    assert data + [b0, b1, b2, b3] == data + [b0] + [b1] + [b2] + [b3];
  }

  /** The four bytes of r, least significant first. */
  function LittleEndian(r: bv32): seq<bv8> {
    [(r & 0xff) as bv8, ((r >> 8) & 0xff) as bv8, ((r >> 16) & 0xff) as bv8, (r >> 24) as bv8]
  }

  lemma LittleEndianComplement(c: bv32, r: bv32)
    requires r == c ^ 0xffffffff
    ensures LittleEndian(r) ==
            [ComplementByte(c), ComplementByte(ShiftByte(c)), ComplementByte(ShiftByte(ShiftByte(c))),
             ComplementByte(ShiftByte(ShiftByte(ShiftByte(c))))]
    ensures ShiftByte(ShiftByte(ShiftByte(ShiftByte(c)))) == 0 && c == Xor(c, 0)
  {
  }

  lemma Constants()
    ensures NextConstant(0) == 0x2d02ef8d && NextConstant(0x2d02ef8d) == 0xbe2612ff
    ensures NextConstant(0xbe2612ff) == 0x00be2612 && NextConstant(0x00be2612) == 0xdebb20e3
  {
  }

  /** The residue law: data, followed by the complement of their register, least significant byte first, always
      leave the same residue. */
  lemma {:induction false} Residue(data: seq<bv8>, c: bv32, r: bv32)
    requires c == BitwiseCrc(data) && r == c ^ 0xffffffff
    ensures BitwiseCrc(data + LittleEndian(r)) == 0xdebb20e3
  {
    LittleEndianComplement(c, r);
    FeedComplements();
    Constants();
    FourMore(FeedByte, 0xffffffff, data, Xor, ShiftByte, ComplementByte, NextConstant, c, 0);
    assert Xor(0, 0xdebb20e3) == 0xdebb20e3;
  }

  // ----- the program -----

  /** One table lookup. */
  method TableStep(crc: bv32, b: bv8) returns (next: bv32)
    ensures next == FeedByte(crc, b)
  {
    TableFeeds(crc, b);
    next := Xor(ShiftByte(crc), Table(LowByte(crc ^ (b as bv32))));
  }

  /** The program's loop. */
  method Register(data: seq<bv8>) returns (crc: bv32)
    ensures crc == BitwiseCrc(data)
  {
    var i := 0;
    crc := 0xffffffff;
    while i < |data|
      invariant 0 <= i <= |data|
      invariant crc == Run(FeedByte, 0xffffffff, data[..i])
    {
      RunOneMore(FeedByte, 0xffffffff, data[..i], data[i]);
      assert data[..i + 1] == data[..i] + [data[i]];
      crc := TableStep(crc, data[i]);
      i := i + 1;
    }
    assert data[..i] == data;
  }

  /** The checksum is the bit-by-bit one, for every byte sequence: the register, inverted. Of no bytes it is 0; and
      data followed by their checksum, least significant byte first, always leave the same residue in the register. */
  method Checksum(data: seq<bv8>) returns (r: bv32)
    ensures r == BitwiseCrc(data) ^ 0xffffffff
    ensures data == [] ==> r == 0
    ensures BitwiseCrc(data + LittleEndian(r)) == 0xdebb20e3
  {
    var crc := Register(data);
    r := crc ^ 0xffffffff;
    Residue(data, crc, r);
  }
}
