/** CRC-32C: the table-driven byte loop against long division by the Castagnoli
    polynomial, and the bursts it is sure to detect. */
module Crc32c {

  /** The Castagnoli polynomial, reflected. */
  const POLYNOMIAL: bv32 := 0x82F6_3B78
  const ONES: bv32 := 0xFFFF_FFFF

  // --------------------------------------------------------------- word operations

  function Xor(x: bv32, y: bv32): bv32 { x ^ y }

  function Half(x: bv32): bv32 { x >> 1 }

  predicate Odd(x: bv32) { x & 1 != 0 }

  function Byte(x: bv32): bv32 { x & 0xFF }

  function DropByte(x: bv32): bv32 { x >> 8 }

  lemma {:induction false} XorLaws(x: bv32, y: bv32, z: bv32)
    ensures Xor(x, y) == Xor(y, x)
    ensures Xor(Xor(x, y), z) == Xor(x, Xor(y, z))
    ensures Xor(x, x) == 0 && Xor(x, 0) == x && Xor(0, x) == x
  {
    hide Xor;
    XorAssociates(x, y, z);
    XorCommutes(x, y);
    XorUnits(x);
  }

  lemma XorCommutes(x: bv32, y: bv32)
    ensures Xor(x, y) == Xor(y, x)
  {
  }

  lemma XorAssociates(x: bv32, y: bv32, z: bv32)
    ensures Xor(Xor(x, y), z) == Xor(x, Xor(y, z))
  {
  }

  lemma XorUnits(x: bv32)
    ensures Xor(x, x) == 0 && Xor(x, 0) == x && Xor(0, x) == x
  {
  }

  lemma HalfXor(x: bv32, y: bv32)
    ensures Half(Xor(x, y)) == Xor(Half(x), Half(y))
  {
  }

  lemma OddXor(x: bv32, y: bv32)
    ensures Odd(Xor(x, y)) <==> Odd(x) != Odd(y)
  {
  }

  // ------------------------------------------------------------------- the table

  /** One bit of the register's shift. */
  function Step(crc: bv32): bv32 {
    if Odd(crc) then Xor(Half(crc), POLYNOMIAL) else Half(crc)
  }

  function Steps(crc: bv32, n: nat): bv32
    decreases n
  {
    if n == 0 then crc else Steps(Step(crc), n - 1)
  }

  /** The 256 registers eight steps on. */
  ghost predicate IsTable(table: seq<bv32>) {
    |table| == 256 && forall i | 0 <= i < 256 :: table[i] == Steps(i as bv32, 8)
  }

  /** One entry: eight shifts of its index. */
  method TableEntry(index: nat) returns (crc: bv32)
    requires index < 256
    ensures crc == Steps(index as bv32, 8)
  {
    hide Xor, Half, Odd;
    crc := index as bv32;
    var bit := 0;
    while bit < 8
      invariant bit <= 8 && Steps(crc, 8 - bit) == Steps(index as bv32, 8)
    {
      crc := if Odd(crc) then Xor(Half(crc), POLYNOMIAL) else Half(crc);
      bit := bit + 1;
    }
  }

  /** The table as the constant builds it. */
  method BuildTable() returns (table: array<bv32>)
    ensures fresh(table) && IsTable(table[..])
  {
    hide Steps;
    table := new bv32[256];
    var index := 0;
    while index < 256
      invariant index <= 256
      invariant forall i | 0 <= i < index :: table[i] == Steps(i as bv32, 8)
    {
      table[index] := TableEntry(index);
      index := index + 1;
    }
  }

  /** The register after one byte, by the table's meaning. */
  function Update(crc: bv32, b: bv8): bv32 {
    Xor(DropByte(crc), Steps(Byte(Xor(crc, b as bv32)), 8))
  }

  function Register(crc: bv32, bytes: seq<bv8>): bv32
    decreases |bytes|
  {
    if bytes == [] then crc else Register(Update(crc, bytes[0]), bytes[1..])
  }

  lemma ByteIndex(x: bv32)
    ensures Byte(x) as nat < 256 && Byte(x) as nat as bv32 == Byte(x)
  {
  }

  /** One lookup. */
  method Lookup(table: array<bv32>, crc: bv32, b: bv8) returns (next: bv32)
    requires IsTable(table[..])
    ensures next == Update(crc, b)
  {
    hide Xor, Steps, Byte, DropByte;
    var x := Byte(Xor(crc, b as bv32));
    ByteIndex(Xor(crc, b as bv32));
    assert table[..][x as nat] == Steps(x, 8);
    next := Xor(DropByte(crc), table[x as nat]);
  }

  /** The checksum by the byte loop. */
  method Checksum(bytes: seq<bv8>) returns (sum: bv32)
    ensures sum == Crc(bytes)
  {
    var table := BuildTable();
    var crc := ONES;
    hide Update, IsTable;
    for i := 0 to |bytes|
      invariant IsTable(table[..]) && Register(crc, bytes[i..]) == Register(ONES, bytes)
    {
      assert bytes[i..][1..] == bytes[i + 1..];
      crc := Lookup(table, crc, bytes[i]);
    }
    sum := !crc;
  }

  function Crc(bytes: seq<bv8>): bv32 {
    !Register(ONES, bytes)
  }

  // ------------------------------------------------------------------- linearity

  lemma {:induction false} StepLinear(x: bv32, y: bv32)
    ensures Step(Xor(x, y)) == Xor(Step(x), Step(y))
  {
    HalfXor(x, y);
    OddXor(x, y);
    var a, b, p := Half(x), Half(y), POLYNOMIAL;
    XorLaws(a, b, p);
    XorLaws(a, p, b);
    XorLaws(a, p, Xor(b, p));
    XorLaws(p, b, p);
    XorLaws(b, p, p);
    hide Xor, Half, Odd;
  }

  lemma {:induction false} StepsLinear(x: bv32, y: bv32, n: nat)
    ensures Steps(Xor(x, y), n) == Xor(Steps(x, n), Steps(y, n))
    decreases n
  {
    hide Step, Xor;
    if n > 0 {
      StepLinear(x, y);
      StepsLinear(Step(x), Step(y), n - 1);
    }
  }

  /** A register step loses nothing: the polynomial's top bit marks a feedback. */
  lemma StepInjective(x: bv32, y: bv32)
    ensures Step(x) == Step(y) ==> x == y
  {
  }

  lemma {:induction false} StepsInjective(x: bv32, y: bv32, n: nat)
    ensures Steps(x, n) == Steps(y, n) ==> x == y
    decreases n
  {
    hide Step;
    if n > 0 {
      StepsInjective(Step(x), Step(y), n - 1);
      StepInjective(x, y);
    }
  }

  lemma {:induction false} StepsSum(x: bv32, m: nat, n: nat)
    ensures Steps(x, m + n) == Steps(Steps(x, m), n)
    decreases m
  {
    hide Step;
    if m > 0 { StepsSum(Step(x), m - 1, n); }
  }

  /** Below its first bit a register only shifts. */
  lemma EvenStep(x: bv32, n: nat)
    requires n > 0 && !Odd(x)
    ensures Steps(x, n) == Steps(Half(x), n - 1)
  {
    hide Odd, Half, Xor;
  }

  lemma EightHalves(x: bv32)
    ensures Half(Half(Half(Half(Half(Half(Half(Half(x)))))))) == DropByte(x)
    ensures Byte(x) == 0 ==>
      !Odd(x) && !Odd(Half(x)) && !Odd(Half(Half(x))) && !Odd(Half(Half(Half(x))))
      && !Odd(Half(Half(Half(Half(x))))) && !Odd(Half(Half(Half(Half(Half(x))))))
      && !Odd(Half(Half(Half(Half(Half(Half(x))))))) && !Odd(Half(Half(Half(Half(Half(Half(Half(x))))))))
  {
  }

  /** Eight steps shift a multiple of 256 by a byte. */
  lemma StepsShift(x: bv32)
    requires Byte(x) == 0
    ensures Steps(x, 8) == DropByte(x)
  {
    EightHalves(x);
    hide Odd, Half, Xor, Byte, DropByte, Step, Steps;
    var a := Half(x);
    var b := Half(a);
    var c := Half(b);
    var d := Half(c);
    var e := Half(d);
    var f := Half(e);
    var g := Half(f);
    EvenStep(x, 8);
    EvenStep(a, 7);
    EvenStep(b, 6);
    EvenStep(c, 5);
    EvenStep(d, 4);
    EvenStep(e, 3);
    EvenStep(f, 2);
    EvenStep(g, 1);
    NoSteps(Half(g));
  }

  lemma NoSteps(x: bv32)
    ensures Steps(x, 0) == x
  {
  }

  function HighBytes(x: bv32): bv32 { x & 0xFFFF_FF00 }

  lemma HighPart(z: bv32)
    ensures Xor(HighBytes(z), Byte(z)) == z && Byte(HighBytes(z)) == 0
  {
  }

  lemma HighDrop(crc: bv32, b: bv32)
    requires HighBytes(b) == 0
    ensures DropByte(HighBytes(Xor(crc, b))) == DropByte(crc)
  {
    assert ((crc ^ b) & 0xFFFF_FF00) >> 8 == (crc >> 8) ^ (b >> 8);
    assert b >> 8 == (b & 0xFFFF_FF00) >> 8;
  }

  lemma ByteWide(b: bv8)
    ensures HighBytes(b as bv32) == 0
  {
  }

  /** The table lookup is eight bit steps of the register with the byte mixed in. */
  lemma {:induction false} UpdateIsSteps(crc: bv32, b: bv8)
    ensures Update(crc, b) == Steps(Xor(crc, b as bv32), 8)
  {
    hide Xor, Byte, DropByte, HighBytes, Step, Steps;
    var z := Xor(crc, b as bv32);
    ByteWide(b);
    HighPart(z);
    HighDrop(crc, b as bv32);
    StepsLinear(HighBytes(z), Byte(z), 8);
    StepsShift(HighBytes(z));
  }

  // ------------------------------------------------------------ bit by bit

  function Bit(b: bool): bv32 { if b then 1 else 0 }

  function Double(x: bv32): bv32 { x << 1 }

  function Halves(x: bv32, n: nat): bv32
    decreases n
  {
    if n == 0 then x else Halves(Half(x), n - 1)
  }

  /** The low `n` bits, lowest first. */
  function BitsFrom(x: bv32, n: nat): (bits: seq<bool>)
    ensures |bits| == n
    decreases n
  {
    if n == 0 then [] else [Odd(x)] + BitsFrom(Half(x), n - 1)
  }

  function Bits(x: bv32): (bits: seq<bool>)
    ensures |bits| == 32
  {
    BitsFrom(x, 32)
  }

  /** A byte's bits in transmission order, lowest first. */
  function MessageBits(bytes: seq<bv8>): (bits: seq<bool>)
    ensures |bits| == 8 * |bytes|
  {
    if bytes == [] then [] else BitsFrom(bytes[0] as bv32, 8) + MessageBits(bytes[1..])
  }

  /** The register after a string of bits. */
  function Shift(crc: bv32, bits: seq<bool>): bv32
    decreases |bits|
  {
    if bits == [] then crc else Shift(Step(Xor(crc, Bit(bits[0]))), bits[1..])
  }

  lemma {:induction false} ShiftAppend(crc: bv32, a: seq<bool>, b: seq<bool>)
    ensures Shift(crc, a + b) == Shift(Shift(crc, a), b)
    decreases |a|
  {
    hide Step, Xor, Bit;
    if a == [] {
      assert a + b == b;
    } else {
      assert (a + b)[1..] == a[1..] + b;
      ShiftAppend(Step(Xor(crc, Bit(a[0]))), a[1..], b);
    }
  }

  /** The number whose bits these are. */
  function Pack(bits: seq<bool>): bv32 {
    if bits == [] then 0 else Xor(Bit(bits[0]), Double(Pack(bits[1..])))
  }

  lemma {:induction false} HalvesSum(x: bv32, m: nat, n: nat)
    ensures Halves(x, m + n) == Halves(Halves(x, m), n)
    decreases m
  {
    hide Half;
    if m > 0 { HalvesSum(Half(x), m - 1, n); }
  }

  lemma HalvesByte(x: bv32)
    ensures Halves(x, 8) == DropByte(x)
  {
    EightHalves(x);
    hide Half, DropByte, Odd;
    var a := Half(x);
    var b := Half(a);
    var c := Half(b);
    var d := Half(c);
    var e := Half(d);
    var f := Half(e);
    var g := Half(f);
    assert Halves(g, 1) == Half(g);
    assert Halves(e, 3) == Half(g);
    assert Halves(c, 5) == Half(g);
    assert Halves(a, 7) == Half(g);
  }

  lemma FourBytes(x: bv32)
    ensures DropByte(DropByte(DropByte(DropByte(x)))) == 0
  {
  }

  /** Thirty-two halvings empty a word. */
  lemma Halves32(x: bv32)
    ensures Halves(x, 32) == 0
  {
    FourBytes(x);
    hide Half, DropByte;
    HalvesByte(x);
    HalvesByte(DropByte(x));
    HalvesByte(DropByte(DropByte(x)));
    HalvesByte(DropByte(DropByte(DropByte(x))));
    HalvesSum(x, 8, 24);
    HalvesSum(DropByte(x), 8, 16);
    HalvesSum(DropByte(DropByte(x)), 8, 8);
  }

  lemma {:induction false} HalvesZero(n: nat)
    ensures Halves(0, n) == 0
    decreases n
  {
    if n > 0 {
      assert Half(0) == 0;
      HalvesZero(n - 1);
    }
  }

  /** Halving undoes doubling while the top bit is clear. */
  lemma HalfDouble(x: bv32)
    requires x & 0x8000_0000 == 0
    ensures Half(Double(x)) == x && !Odd(Double(x))
  {
  }

  lemma BitDouble(b: bool, y: bv32)
    requires y & 0x8000_0000 == 0
    ensures Half(Xor(Bit(b), Double(y))) == y && (Odd(Xor(Bit(b), Double(y))) <==> b)
  {
  }

  lemma SevenHalves(x: bv32)
    requires DropByte(x) == 0 && Half(Half(Half(Half(Half(Half(Half(x))))))) == 0
    ensures x & 0x80 == 0
  {
  }

  lemma TopByte(x: bv32)
    requires DropByte(DropByte(DropByte(x))) & 0x80 == 0
    ensures x & 0x8000_0000 == 0
  {
  }

  /** A word of at most thirty-one bits has a clear top bit. */
  lemma TopClear(x: bv32, n: nat)
    requires n <= 31 && Halves(x, n) == 0
    ensures x & 0x8000_0000 == 0
  {
    var y := DropByte(DropByte(DropByte(x)));
    FourBytes(x);
    assert Halves(y, 7) == 0 by {
      hide Half, DropByte;
      HalvesSum(x, n, 31 - n);
      HalvesZero(31 - n);
      HalvesByte(x);
      HalvesByte(DropByte(x));
      HalvesByte(DropByte(DropByte(x)));
      HalvesSum(x, 8, 23);
      HalvesSum(DropByte(x), 8, 15);
      HalvesSum(DropByte(DropByte(x)), 8, 7);
    }
    SevenUnfold(y);
    hide Half, DropByte;
    SevenHalves(y);
    TopByte(x);
  }

  lemma SevenUnfold(x: bv32)
    ensures Halves(x, 7) == Half(Half(Half(Half(Half(Half(Half(x)))))))
  {
    hide Half;
    var a := Half(x);
    var b := Half(a);
    var c := Half(b);
    var d := Half(c);
    var e := Half(d);
    var f := Half(e);
    assert Halves(f, 1) == Half(f);
    assert Halves(d, 3) == Half(f);
    assert Halves(b, 5) == Half(f);
  }

  lemma {:induction false} PackFits(bits: seq<bool>)
    requires |bits| <= 32
    ensures Halves(Pack(bits), |bits|) == 0
  {
    hide Half, Xor, Double, Bit, Odd;
    if bits != [] {
      PackFits(bits[1..]);
      TopClear(Pack(bits[1..]), |bits| - 1);
      BitDouble(bits[0], Pack(bits[1..]));
    }
  }

  /** Up to thirty-two bits can be mixed in at once. */
  lemma {:induction false} ShiftIsSteps(crc: bv32, bits: seq<bool>)
    requires |bits| <= 32
    ensures Shift(crc, bits) == Steps(Xor(crc, Pack(bits)), |bits|)
    decreases |bits|
  {
    hide Half, Xor, Double, Bit, Odd;
    if bits == [] {
      XorLaws(crc, 0, 0);
    } else {
      var p := Pack(bits[1..]);
      var x := Xor(crc, Bit(bits[0]));
      ShiftIsSteps(Step(x), bits[1..]);
      PackFits(bits[1..]);
      TopClear(p, |bits| - 1);
      HalfDouble(p);
      StepLinear(x, Double(p));
      assert Step(Double(p)) == p;
      XorLaws(crc, Bit(bits[0]), Double(p));
    }
  }

  lemma {:induction false} PackInjective(a: seq<bool>, b: seq<bool>)
    requires |a| == |b| <= 32 && Pack(a) == Pack(b)
    ensures a == b
  {
    hide Half, Xor, Double, Bit, Odd;
    if a != [] {
      PackFits(a[1..]);
      PackFits(b[1..]);
      TopClear(Pack(a[1..]), |a| - 1);
      TopClear(Pack(b[1..]), |b| - 1);
      BitDouble(a[0], Pack(a[1..]));
      BitDouble(b[0], Pack(b[1..]));
      PackInjective(a[1..], b[1..]);
      assert a == [a[0]] + a[1..] && b == [b[0]] + b[1..];
    }
  }

  lemma Rebuild(x: bv32)
    ensures Xor(Bit(Odd(x)), Double(Half(x))) == x
  {
  }

  lemma {:induction false} PackBits(x: bv32, n: nat)
    requires Halves(x, n) == 0
    ensures Pack(BitsFrom(x, n)) == x
    decreases n
  {
    hide Half, Xor, Double, Bit, Odd;
    if n > 0 {
      PackBits(Half(x), n - 1);
      Rebuild(x);
    }
  }

  lemma ByteFits(b: bv8)
    ensures DropByte(b as bv32) == 0
  {
  }

  /** The byte loop is the bit loop over the message's bits. */
  lemma {:induction false} RegisterIsShift(crc: bv32, bytes: seq<bv8>)
    ensures Register(crc, bytes) == Shift(crc, MessageBits(bytes))
    decreases |bytes|
  {
    if bytes != [] {
      var b := bytes[0];
      var bits := BitsFrom(b as bv32, 8);
      UpdateIsSteps(crc, b);
      ShiftIsSteps(crc, bits);
      ByteFits(b);
      HalvesByte(b as bv32);
      PackBits(b as bv32, 8);
      hide Update, Steps, Shift, Pack, Halves, BitsFrom, DropByte, Xor;
      ShiftAppend(crc, bits, MessageBits(bytes[1..]));
      RegisterIsShift(Update(crc, b), bytes[1..]);
    }
  }

  // ----------------------------------------------------------------- burst errors

  lemma {:induction false} ShiftInjective(x: bv32, y: bv32, bits: seq<bool>)
    ensures Shift(x, bits) == Shift(y, bits) ==> x == y
    decreases |bits|
  {
    hide Xor, Step, Bit;
    if bits != [] {
      var b := Bit(bits[0]);
      ShiftInjective(Step(Xor(x, b)), Step(Xor(y, b)), bits[1..]);
      StepInjective(Xor(x, b), Xor(y, b));
      XorLaws(x, b, b);
      XorLaws(y, b, b);
      XorLaws(b, b, x);
      XorLaws(x, 0, 0);
      XorLaws(y, 0, 0);
    }
  }

  lemma XorCancel(x: bv32, y: bv32, z: bv32)
    ensures Xor(x, y) == Xor(x, z) ==> y == z
  {
  }

  /** Two bit strings that differ only inside thirty-two consecutive bits leave
      different registers. */
  lemma BurstShift(crc: bv32, before: seq<bool>, a: seq<bool>, b: seq<bool>, after: seq<bool>)
    requires |a| == |b| <= 32 && a != b
    ensures Shift(crc, before + a + after) != Shift(crc, before + b + after)
  {
    var r := Shift(crc, before);
    ShiftAppend(crc, before + a, after);
    ShiftAppend(crc, before, a);
    ShiftAppend(crc, before + b, after);
    ShiftAppend(crc, before, b);
    ShiftIsSteps(r, a);
    ShiftIsSteps(r, b);
    hide Shift, Steps, Xor, Pack;
    StepsInjective(Xor(r, Pack(a)), Xor(r, Pack(b)), |a|);
    XorCancel(r, Pack(a), Pack(b));
    if Pack(a) == Pack(b) { PackInjective(a, b); }
    ShiftInjective(Shift(r, a), Shift(r, b), after);
  }

  /** A burst of at most thirty-two bits, wherever it falls, changes the sum. */
  lemma {:induction false} BurstDetected(x: seq<bv8>, y: seq<bv8>, from: nat, to: nat)
    requires |x| == |y| && x != y && from <= to <= 8 * |x| && to - from <= 32
    requires MessageBits(x)[..from] == MessageBits(y)[..from]
    requires MessageBits(x)[to..] == MessageBits(y)[to..]
    ensures Crc(x) != Crc(y)
  {
    hide MessageBits, Shift, Register;
    var a, b := MessageBits(x), MessageBits(y);
    if a == b { BitsInjective(x, y); }
    assert a == a[..from] + a[from..to] + a[to..];
    assert b == b[..from] + b[from..to] + b[to..];
    BurstShift(ONES, a[..from], a[from..to], b[from..to], a[to..]);
    RegisterIsShift(ONES, x);
    RegisterIsShift(ONES, y);
    NotInjective(Register(ONES, x), Register(ONES, y));
  }

  lemma NotInjective(x: bv32, y: bv32)
    ensures !x == !y ==> x == y
  {
  }

  lemma ByteWord(a: bv8, b: bv8)
    ensures a as bv32 == b as bv32 ==> a == b
  {
  }

  /** A byte is known by its bits. */
  lemma {:induction false} ByteBits(a: bv8, b: bv8)
    requires BitsFrom(a as bv32, 8) == BitsFrom(b as bv32, 8)
    ensures a == b
  {
    hide BitsFrom, Halves, Pack, DropByte;
    ByteFits(a);
    ByteFits(b);
    HalvesByte(a as bv32);
    HalvesByte(b as bv32);
    PackBits(a as bv32, 8);
    PackBits(b as bv32, 8);
    ByteWord(a, b);
  }

  lemma {:induction false} BitsInjective(x: seq<bv8>, y: seq<bv8>)
    requires |x| == |y| && MessageBits(x) == MessageBits(y)
    ensures x == y
  {
    if x != [] {
      hide BitsFrom;
      var a, b := BitsFrom(x[0] as bv32, 8), BitsFrom(y[0] as bv32, 8);
      assert MessageBits(x)[..8] == a && MessageBits(y)[..8] == b;
      assert MessageBits(x)[8..] == MessageBits(x[1..]) && MessageBits(y)[8..] == MessageBits(y[1..]);
      ByteBits(x[0], y[0]);
      BitsInjective(x[1..], y[1..]);
      assert x == [x[0]] + x[1..] && y == [y[0]] + y[1..];
    }
  }

  /** In particular any damage confined to four consecutive bytes. */
  lemma {:induction false} FourByteBurstDetected(before: seq<bv8>, a: seq<bv8>, b: seq<bv8>, after: seq<bv8>)
    requires |a| == |b| <= 4 && a != b
    ensures Crc(before + a + after) != Crc(before + b + after)
  {
    hide MessageBits, Crc;
    var x, y := before + a + after, before + b + after;
    DamageFrame(before, a, after);
    DamageFrame(before, b, after);
    assert x[|before|..|before| + |a|] == a && y[|before|..|before| + |b|] == b;
    BurstDetected(x, y, 8 * |before|, 8 * (|before| + |a|));
  }

  /** The bits around the damaged bytes. */
  lemma DamageFrame(before: seq<bv8>, a: seq<bv8>, after: seq<bv8>)
    ensures var bits := MessageBits(before + a + after);
      && |bits| == 8 * (|before| + |a| + |after|)
      && bits[..8 * |before|] == MessageBits(before)
      && bits[8 * (|before| + |a|)..] == MessageBits(after)
  {
    hide MessageBits;
    MessageAppend(before + a, after);
    MessageAppend(before, a);
    assert MessageBits(before + a + after) == MessageBits(before) + (MessageBits(a) + MessageBits(after));
  }

  lemma {:induction false} MessageAppend(a: seq<bv8>, b: seq<bv8>)
    ensures MessageBits(a + b) == MessageBits(a) + MessageBits(b)
  {
    hide BitsFrom;
    if a == [] {
      assert a + b == b;
    } else {
      assert (a + b)[1..] == a[1..] + b;
      MessageAppend(a[1..], b);
    }
  }

  // ---------------------------------------------------------------- long division

  function Zeros(n: nat): seq<bool> { seq(n, i => false) }

  /** Adds `p`, coefficient by coefficient, to the front of `d`. */
  function AddFront(d: seq<bool>, p: seq<bool>): (r: seq<bool>)
    requires |p| <= |d|
    ensures |r| == |d|
  {
    seq(|d|, i requires 0 <= i < |d| => if i < |p| then d[i] != p[i] else d[i])
  }

  /** x^32 and the 32 lower coefficients, highest degree first. */
  function Divisor(): (d: seq<bool>)
    ensures |d| == 33
  {
    [true] + Bits(POLYNOMIAL)
  }

  /** Long division over GF(2): cancel the leading term, drop it, go on until the
      degree is below the divisor's. */
  function Remainder(dividend: seq<bool>): (r: seq<bool>)
    requires |dividend| >= 32
    ensures |r| == 32
    decreases |dividend|
  {
    if |dividend| == 32 then dividend
    else if dividend[0] then Remainder(AddFront(dividend, Divisor())[1..])
    else Remainder(dividend[1..])
  }

  lemma {:induction false} BitsOfXor(x: bv32, y: bv32, n: nat)
    ensures BitsFrom(Xor(x, y), n) == AddFront(BitsFrom(x, n), BitsFrom(y, n))
    decreases n
  {
    hide Half, Xor, Odd;
    if n > 0 {
      HalfXor(x, y);
      OddXor(x, y);
      BitsOfXor(Half(x), Half(y), n - 1);
    }
  }

  lemma {:induction false} BitsExtend(x: bv32, n: nat)
    requires Halves(x, n) == 0
    ensures BitsFrom(x, n + 1) == BitsFrom(x, n) + [false]
    decreases n
  {
    if n == 0 {
      assert BitsFrom(x, 1) == [Odd(x)] + BitsFrom(Half(x), 0);
    } else {
      hide Half, Odd;
      BitsExtend(Half(x), n - 1);
    }
  }

  lemma BitsOfHalf(x: bv32)
    ensures Bits(Half(x)) == Bits(x)[1..] + [false]
  {
    hide Half, Odd;
    Halves32(x);
    assert Halves(x, 32) == Halves(Half(x), 31);
    BitsExtend(Half(x), 31);
    assert BitsFrom(x, 32) == [Odd(x)] + BitsFrom(Half(x), 31);
  }

  lemma AddTwice(d: seq<bool>, p: seq<bool>, q: seq<bool>)
    requires |p| == |q| <= |d|
    ensures AddFront(AddFront(d, p), q) == AddFront(d, AddFront(p, q))
  {
  }

  lemma HalfOfBit(crc: bv32, b: bool)
    ensures Half(Xor(crc, Bit(b))) == Half(crc)
    ensures Odd(Xor(crc, Bit(b))) <==> Odd(crc) != b
  {
  }

  /** The shift register divides: it holds the remainder of the message read so
      far, its start value added to the front, the yet unread bits to come. */
  lemma {:induction false} ShiftDivides(crc: bv32, message: seq<bool>)
    ensures Bits(Shift(crc, message)) == Remainder(AddFront(message + Zeros(32), Bits(crc)))
    decreases |message|
  {
    hide Half, Xor, Odd, Bit, BitsFrom;
    var d := AddFront(message + Zeros(32), Bits(crc));
    if message == [] {
      assert d == Bits(crc);
    } else {
      var rest := message[1..] + Zeros(32);
      var x := Xor(crc, Bit(message[0]));
      HalfOfBit(crc, message[0]);
      FirstBit(crc);
      BitsOfHalf(crc);
      assert d[1..] == AddFront(rest, Bits(Half(crc)));
      if d[0] {
        BitsOfXor(Half(crc), POLYNOMIAL, 32);
        AddTwice(rest, Bits(Half(crc)), Bits(POLYNOMIAL));
        assert AddFront(d, Divisor())[1..] == AddFront(d[1..], Bits(POLYNOMIAL));
      }
      ShiftDivides(Step(x), message[1..]);
    }
  }

  lemma FirstBit(x: bv32)
    ensures Bits(x)[0] == Odd(x)
  {
  }

  /** The low `k` bits set. */
  function LowOnes(k: nat): bv32 {
    if k == 0 then 0 else Xor(Bit(true), Double(LowOnes(k - 1)))
  }

  lemma {:induction false} LowOnesBits(k: nat)
    requires k <= 32
    ensures Halves(LowOnes(k), k) == 0
    ensures forall i | 0 <= i < k :: BitsFrom(LowOnes(k), k)[i]
  {
    hide Half, Xor, Double, Bit, Odd;
    if k > 0 {
      LowOnesBits(k - 1);
      TopClear(LowOnes(k - 1), k - 1);
      BitDouble(true, LowOnes(k - 1));
    }
  }

  lemma LowOnesValue()
    ensures LowOnes(32) == ONES
  {
    assert LowOnes(4) == 0xF;
    assert LowOnes(8) == 0xFF;
    assert LowOnes(12) == 0xFFF;
    assert LowOnes(16) == 0xFFFF;
    assert LowOnes(20) == 0xF_FFFF;
    assert LowOnes(24) == 0xFF_FFFF;
    assert LowOnes(28) == 0xFFF_FFFF;
  }

  /** The start value complements: every bit of it is set. */
  lemma {:induction false} StartIsComplement()
    ensures forall i | 0 <= i < 32 :: Bits(ONES)[i]
  {
    LowOnesBits(32);
    LowOnesValue();
  }

  /** The first thirty-two coefficients complemented. */
  function ComplementFront(d: seq<bool>): (r: seq<bool>)
    requires |d| >= 32
    ensures |r| == |d|
  {
    seq(|d|, i requires 0 <= i < |d| => if i < 32 then !d[i] else d[i])
  }

  /** The checksum, its final complement undone, is the remainder of the message
      bits followed by thirty-two zeros, the first thirty-two of them complemented,
      on division by the Castagnoli polynomial. */
  lemma {:induction false} ChecksumDivides(bytes: seq<bv8>)
    ensures Bits(!Crc(bytes)) == Remainder(ComplementFront(MessageBits(bytes) + Zeros(32)))
  {
    StartIsComplement();
    hide Shift, Register, BitsFrom, Remainder;
    RegisterIsShift(ONES, bytes);
    ShiftDivides(ONES, MessageBits(bytes));
    NotNot(Register(ONES, bytes));
    assert AddFront(MessageBits(bytes) + Zeros(32), Bits(ONES)) == ComplementFront(MessageBits(bytes) + Zeros(32));
  }

  lemma NotNot(x: bv32)
    ensures !!x == x
  {
  }

  // ------------------------------------------------------------- Castagnoli's choice

  /** The exponents of the generator with a coefficient of one. */
  const EXPONENTS: set<int> := {32, 28, 27, 26, 25, 23, 22, 20, 19, 18, 14, 13, 11, 10, 9, 8, 6, 0}

  lemma {:induction false} BitsSplit(x: bv32, m: nat, n: nat)
    ensures BitsFrom(x, m + n) == BitsFrom(x, m) + BitsFrom(Halves(x, m), n)
    decreases m
  {
    hide Half, Odd;
    if m > 0 {
      BitsSplit(Half(x), m - 1, n);
    }
  }

  lemma ByByte(x: bv32, n: nat)
    ensures BitsFrom(x, 8 + n) == BitsFrom(x, 8) + BitsFrom(DropByte(x), n)
  {
    hide BitsFrom, DropByte;
    BitsSplit(x, 8, n);
    HalvesByte(x);
  }

  /** The low four bits one by one, and the rest. */
  lemma NibbleShape(x: bv32, n: nat)
    ensures var a, b, c, d := Half(x), Half(Half(x)), Half(Half(Half(x))), Half(Half(Half(Half(x))));
      && BitsFrom(x, 4 + n) == [Odd(x), Odd(a), Odd(b), Odd(c)] + BitsFrom(d, n)
      && Parity(BitsFrom(x, 4 + n)) == (Odd(x) != (Odd(a) != (Odd(b) != (Odd(c) != Parity(BitsFrom(d, n))))))
  {
    hide Half, Odd, BitsFrom, Parity;
    var a, b, c, d := Half(x), Half(Half(x)), Half(Half(Half(x))), Half(Half(Half(Half(x))));
    FrontBit(x, 3 + n);
    FrontBit(a, 2 + n);
    FrontBit(b, 1 + n);
    FrontBit(c, n);
    assert [Odd(x)] + ([Odd(a)] + ([Odd(b)] + ([Odd(c)] + BitsFrom(d, n)))) == [Odd(x), Odd(a), Odd(b), Odd(c)] + BitsFrom(d, n);
  }

  lemma NoBits(x: bv32)
    ensures BitsFrom(x, 0) == [] && !Parity(BitsFrom(x, 0))
  {
  }

  lemma FrontBit(x: bv32, n: nat)
    ensures BitsFrom(x, n + 1) == [Odd(x)] + BitsFrom(Half(x), n)
    ensures Parity(BitsFrom(x, n + 1)) == (Odd(x) != Parity(BitsFrom(Half(x), n)))
  {
    hide Half, Odd;
    assert BitsFrom(x, n + 1)[1..] == BitsFrom(Half(x), n);
  }

  lemma FirstByte()
    ensures BitsFrom(0x82F6_3B78, 8) == [false, false, false, true, true, true, true, false] && !Parity(BitsFrom(0x82F6_3B78, 8))
  {
    hide BitsFrom, Parity;
    NibbleShape(0x82F6_3B78, 4);
    NibbleShape(0x82F63B7, 0);
    NoBits(0x82F63B);
  }

  lemma SecondByte()
    ensures BitsFrom(0x82_F63B, 8) == [true, true, false, true, true, true, false, false] && Parity(BitsFrom(0x82_F63B, 8))
  {
    hide BitsFrom, Parity;
    NibbleShape(0x82_F63B, 4);
    NibbleShape(0x82F63, 0);
    NoBits(0x82F6);
  }

  lemma ThirdByte()
    ensures BitsFrom(0x82F6, 8) == [false, true, true, false, true, true, true, true] && !Parity(BitsFrom(0x82F6, 8))
  {
    hide BitsFrom, Parity;
    NibbleShape(0x82F6, 4);
    NibbleShape(0x82F, 0);
    NoBits(0x82);
  }

  lemma FourthByte()
    ensures BitsFrom(0x82, 8) == [false, true, false, false, false, false, false, true] && !Parity(BitsFrom(0x82, 8))
  {
    hide BitsFrom, Parity;
    NibbleShape(0x82, 4);
    NibbleShape(0x8, 0);
    NoBits(0x0);
  }

  /** The polynomial's bits, byte by byte. */
  lemma {:induction false} PolynomialBits()
    ensures Bits(POLYNOMIAL) ==
      [false, false, false, true, true, true, true, false] +
      [true, true, false, true, true, true, false, false] +
      [false, true, true, false, true, true, true, true] +
      [false, true, false, false, false, false, false, true]
  {
    hide BitsFrom, DropByte;
    FirstByte();
    SecondByte();
    ThirdByte();
    FourthByte();
    PolynomialBytes();
    ByByte(0x82F6_3B78, 24);
    ByByte(0x82_F63B, 16);
    ByByte(0x82F6, 8);
  }

  lemma PolynomialBytes()
    ensures DropByte(0x82F6_3B78) == 0x82_F63B && DropByte(0x82_F63B) == 0x82F6 && DropByte(0x82F6) == 0x82
  {
  }

  /** The divisor is the polynomial with those exponents. */
  lemma {:induction false} DivisorExponents()
    ensures forall e | 0 <= e <= 32 :: Divisor()[32 - e] <==> e in EXPONENTS
  {
    hide BitsFrom;
    PolynomialBits();
  }

  /** Whether an odd number of the bits is set. */
  function Parity(bits: seq<bool>): bool {
    if bits == [] then false else bits[0] != Parity(bits[1..])
  }

  lemma {:induction false} ParityAppend(a: seq<bool>, b: seq<bool>)
    ensures Parity(a + b) == (Parity(a) != Parity(b))
  {
    if a == [] {
      assert a + b == b;
    } else {
      assert (a + b)[1..] == a[1..] + b;
      ParityAppend(a[1..], b);
    }
  }

  lemma {:induction false} ParityAdd(d: seq<bool>, p: seq<bool>)
    requires |p| == |d|
    ensures Parity(AddFront(d, p)) == (Parity(d) != Parity(p))
  {
    if d != [] {
      ParityAdd(d[1..], p[1..]);
      assert AddFront(d, p)[1..] == AddFront(d[1..], p[1..]);
    }
  }

  /** The generator is divisible by x + 1: it has an even number of terms. */
  lemma DivisorIsEven()
    ensures !Parity(Divisor())
  {
    PolynomialIsOdd();
    hide Bits;
    assert Divisor()[1..] == Bits(POLYNOMIAL);
  }

  lemma PolynomialIsOdd()
    ensures Parity(Bits(POLYNOMIAL))
  {
    hide BitsFrom, DropByte, Parity;
    PolynomialBits();
    FirstByte();
    SecondByte();
    ThirdByte();
    FourthByte();
    var a, b, c, d := BitsFrom(0x82F6_3B78, 8), BitsFrom(0x82_F63B, 8), BitsFrom(0x82F6, 8), BitsFrom(0x82, 8);
    ParityAppend(a + b + c, d);
    ParityAppend(a + b, c);
    ParityAppend(a, b);
  }

  lemma ParityOfHalf(x: bv32)
    ensures Parity(Bits(x)) == (Odd(x) != Parity(Bits(Half(x))))
  {
    hide BitsFrom;
    BitsOfHalf(x);
    FirstBit(x);
    ParityAppend(Bits(x)[1..], [false]);
    ParityOne(false);
  }

  lemma ParityOne(b: bool)
    ensures Parity([b]) == b
  {
  }

  /** Because of that, a step of the register keeps its parity. */
  lemma {:induction false} StepKeepsParity(x: bv32)
    ensures Parity(Bits(Step(x))) == Parity(Bits(x))
  {
    hide BitsFrom, Parity, Half, Odd, Xor;
    ParityOfHalf(x);
    BitsOfXor(Half(x), POLYNOMIAL, 32);
    ParityAdd(Bits(Half(x)), Bits(POLYNOMIAL));
    PolynomialIsOdd();
  }

  /** So a register's parity is that of its start and of the bits it has read. */
  lemma {:induction false} ShiftParity(crc: bv32, bits: seq<bool>)
    ensures Parity(Bits(Shift(crc, bits))) == (Parity(Bits(crc)) != Parity(bits))
    decreases |bits|
  {
    hide BitsFrom, Half, Odd, Xor, Step, Bit;
    if bits != [] {
      var x := Xor(crc, Bit(bits[0]));
      ShiftParity(Step(x), bits[1..]);
      StepKeepsParity(x);
      ParityOfHalf(x);
      ParityOfHalf(crc);
      HalfOfBit(crc, bits[0]);
    }
  }

  /** The bits in which two strings differ. */
  function Differing(a: seq<bool>, b: seq<bool>): nat
    requires |a| == |b|
  {
    if a == [] then 0 else (if a[0] != b[0] then 1 else 0) + Differing(a[1..], b[1..])
  }

  lemma {:induction false} DifferingParity(a: seq<bool>, b: seq<bool>)
    requires |a| == |b|
    ensures Differing(a, b) % 2 == 1 <==> Parity(a) != Parity(b)
  {
    if a != [] { DifferingParity(a[1..], b[1..]); }
  }

  /** Damage to an odd number of bits, wherever they are, changes the sum. */
  lemma {:induction false} OddDamageDetected(x: seq<bv8>, y: seq<bv8>)
    requires |x| == |y| && Differing(MessageBits(x), MessageBits(y)) % 2 == 1
    ensures Crc(x) != Crc(y)
  {
    hide BitsFrom, Parity, Register, Shift, MessageBits, Differing;
    DifferingParity(MessageBits(x), MessageBits(y));
    RegisterIsShift(ONES, x);
    RegisterIsShift(ONES, y);
    ShiftParity(ONES, MessageBits(x));
    ShiftParity(ONES, MessageBits(y));
    NotInjective(Register(ONES, x), Register(ONES, y));
  }

  // ------------------------------------------------------------------ published sums

  lemma UpdateIs(crc: bv32, b: bv8, index: bv32, entry: bv32, next: bv32)
    requires Byte(Xor(crc, b as bv32)) == index && Steps(index, 8) == entry && Xor(DropByte(crc), entry) == next
    ensures Update(crc, b) == next
  {
  }

  lemma RegisterFirst(crc: bv32, bytes: seq<bv8>)
    requires bytes != []
    ensures Register(crc, bytes) == Register(Update(crc, bytes[0]), bytes[1..])
  {
    hide Update;
  }

  lemma RegisterThree(crc: bv32, a: bv8, b: bv8, c: bv8, rest: seq<bv8>)
    ensures Register(crc, [a, b, c] + rest) == Register(Update(Update(Update(crc, a), b), c), rest)
  {
    hide Update, Register;
    var s := [a, b, c] + rest;
    var t := s[1..];
    var u := t[1..];
    RegisterFirst(crc, s);
    RegisterFirst(Update(crc, a), t);
    RegisterFirst(Update(Update(crc, a), b), u);
    assert u[1..] == rest;
  }

  lemma FirstThree()
    ensures Update(Update(Update(0xFFFF_FFFF, 0x31), 0x32), 0x33) == 0xEF84_D04D
  {
    hide Update;
    UpdateIs(0xFFFF_FFFF, 0x31, 0xce, 0x6FF5_99E3, 0x6F0A_661C);
    UpdateIs(0x6F0A_661C, 0x32, 0x2e, 0x8CC5_31F9, 0x8CAA_3B9F);
    UpdateIs(0x8CAA_3B9F, 0x33, 0xac, 0xEF08_7A76, 0xEF84_D04D);
  }

  lemma MiddleThree()
    ensures Update(Update(Update(0xEF84_D04D, 0x34), 0x35), 0x36) == 0xBECA_8E79
  {
    hide Update;
    UpdateIs(0xEF84_D04D, 0x34, 0x79, 0x092A_8FC1, 0x09C5_0B11);
    UpdateIs(0x09C5_0B11, 0x35, 0x24, 0xE727_19C1, 0xE72E_DCCA);
    UpdateIs(0xE72E_DCCA, 0x36, 0xfc, 0xBE2D_A0A5, 0xBECA_8E79);
  }

  lemma LastThree()
    ensures Update(Update(Update(0xBECA_8E79, 0x37), 0x38), 0x39) == 0x1CF9_6D7C
  {
    hide Update;
    UpdateIs(0xBECA_8E79, 0x37, 0x4e, 0xED03_A29B, 0xEDBD_6815);
    UpdateIs(0xEDBD_6815, 0x38, 0x2d, 0x9F95_C20D, 0x9F78_7F65);
    UpdateIs(0x9F78_7F65, 0x39, 0x5c, 0x1C66_1503, 0x1CF9_6D7C);
  }

  /** The published sums of "" and of "123456789". */
  lemma {:induction false} PublishedSums()
    ensures Crc([]) == 0
    ensures Crc([0x31, 0x32, 0x33, 0x34, 0x35, 0x36, 0x37, 0x38, 0x39]) == 0xE306_9283
  {
    hide Update, Register;
    FirstThree();
    MiddleThree();
    LastThree();
    var s: seq<bv8> := [0x31, 0x32, 0x33, 0x34, 0x35, 0x36, 0x37, 0x38, 0x39];
    RegisterThree(ONES, 0x31, 0x32, 0x33, [0x34, 0x35, 0x36, 0x37, 0x38, 0x39]);
    assert s == [0x31, 0x32, 0x33] + [0x34, 0x35, 0x36, 0x37, 0x38, 0x39];
    RegisterThree(0xEF84_D04D, 0x34, 0x35, 0x36, [0x37, 0x38, 0x39]);
    assert s[3..] == [0x34, 0x35, 0x36] + [0x37, 0x38, 0x39];
    RegisterThree(0xBECA_8E79, 0x37, 0x38, 0x39, []);
    assert s[6..] == [0x37, 0x38, 0x39] + [];
    RegisterNone(ONES);
    RegisterNone(0x1CF9_6D7C);
  }

  lemma RegisterNone(crc: bv32)
    ensures Register(crc, []) == crc
  {
  }
}
