/** FNV-1a, the fold behind every content digest. */
module Hash {
  import opened Common

  const FNV1A_OFFSET: u64 := 0xcbf2_9ce4_8422_2325
  const FNV1A_PRIME: nat := 0x100_0000_01b3

  /** Exclusive or of the low `n` bits. */
  function Xor(a: nat, b: nat, n: nat): (r: nat) {
    if n == 0 then 0 else (a + b) % 2 + 2 * Xor(a / 2, b / 2, n - 1)
  }

  function FnvStep(digest: u64, b: byte): u64 {
    (digest - digest % 0x100 + Xor(digest % 0x100, b, 8)) * FNV1A_PRIME % 0x1_0000_0000_0000_0000
  }

  function FnvFold(digest: u64, bytes: seq<byte>): u64
    decreases |bytes|
  {
    if bytes == [] then digest else FnvFold(FnvStep(digest, bytes[0]), bytes[1..])
  }

  // ------------------------------------------------------------ what a fold tells apart

  function TwoTo(n: nat): nat { if n == 0 then 1 else 2 * TwoTo(n - 1) }

  lemma XorNext(a: nat, b: nat, n: nat)
    requires n > 0
    ensures Xor(a, b, n) == (a + b) % 2 + 2 * Xor(a / 2, b / 2, n - 1)
  {
  }

  lemma Halved(a: nat, n: nat)
    requires n > 0 && a < TwoTo(n)
    ensures a / 2 < TwoTo(n - 1) && TwoTo(n) == 2 * TwoTo(n - 1)
  {
  }

  lemma ParityTells(a: nat, b: nat, c: nat)
    ensures (a + b) % 2 == (a + c) % 2 <==> b % 2 == c % 2
  {
  }

  lemma DigitTells(d: nat, x: nat, e: nat, y: nat)
    requires d < 2 && e < 2
    ensures d + 2 * x == e + 2 * y <==> d == e && x == y
  {
  }

  lemma HalfTells(b: nat, c: nat)
    ensures b == c <==> b % 2 == c % 2 && b / 2 == c / 2
  {
  }

  /** Exclusive or keeps within the bits, and loses nothing of either side. */
  lemma {:induction false} XorBits(a: nat, b: nat, c: nat, n: nat)
    requires b < TwoTo(n) && c < TwoTo(n)
    ensures Xor(a, b, n) < TwoTo(n) && Xor(a, b, n) == Xor(b, a, n)
    ensures Xor(a, b, n) == Xor(a, c, n) <==> b == c
  {
    if n > 0 {
      hide Xor, TwoTo;
      Halved(b, n);
      Halved(c, n);
      XorBits(a / 2, b / 2, c / 2, n - 1);
      XorNext(a, b, n);
      XorNext(a, c, n);
      XorNext(b, a, n);
      ParityTells(a, b, c);
      DigitTells((a + b) % 2, Xor(a / 2, b / 2, n - 1), (a + c) % 2, Xor(a / 2, c / 2, n - 1));
      HalfTells(b, c);
    }
  }

  lemma EightBits()
    ensures TwoTo(8) == 0x100
  {
    assert TwoTo(4) == 16;
  }

  /** The inverse of the prime modulo 2^64, which an odd number has. */
  const FNV1A_INVERSE: nat := 0xce96_5057_aff6_957b

  lemma {:induction false} RemainderIs(a: nat, m: nat, k: int, r: nat)
    requires a == m * k + r && r < m
    ensures a % m == r
  {
    var x := a / m - k;
    assert m * x == r - a % m by { Spread(m, a / m, k); }
    if x >= 1 { Longer(m, x); }
    if x <= -1 { Longer(m, -x); Opposite(m, x); }
  }

  lemma Spread(m: nat, x: int, y: int)
    ensures m * (x - y) == m * x - m * y
  {
  }

  lemma Longer(m: nat, x: int)
    requires x >= 1
    ensures m * x >= m
  {
  }

  lemma Opposite(m: nat, x: int)
    ensures m * -x == -(m * x)
  {
  }

  /** Multiplying by the prime modulo 2^64 is undone by its inverse. */
  lemma {:induction false} PrimeUndone(x: u64)
    ensures (x * FNV1A_PRIME % 0x1_0000_0000_0000_0000) * FNV1A_INVERSE % 0x1_0000_0000_0000_0000 == x
  {
    var m := 0x1_0000_0000_0000_0000;
    var k := x * FNV1A_PRIME / m;
    var r := x * FNV1A_PRIME % m;
    assert r == x * FNV1A_PRIME - m * k;
    assert FNV1A_PRIME * FNV1A_INVERSE == m * 0xce_9650_590f + 1;
    assert r * FNV1A_INVERSE == m * (x * 0xce_9650_590f - k * FNV1A_INVERSE) + x;
    RemainderIs(r * FNV1A_INVERSE, m, x * 0xce_9650_590f - k * FNV1A_INVERSE, x);
  }

  /** The digest with a byte mixed in, before it is multiplied. */
  function Mixed(digest: u64, b: byte): nat {
    digest - digest % 0x100 + Xor(digest % 0x100, b, 8)
  }

  lemma {:induction false} Parts(q: nat, r: nat, digest: nat)
    requires r < 0x100 && digest == 0x100 * q + r
    ensures digest / 0x100 == q && digest % 0x100 == r
  {
  }

  lemma MixedIs(d: u64, b: byte)
    ensures Xor(d % 0x100, b, 8) < 0x100 && Mixed(d, b) < 0x1_0000_0000_0000_0000
    ensures Mixed(d, b) / 0x100 == d / 0x100 && Mixed(d, b) % 0x100 == Xor(d % 0x100, b, 8)
  {
    hide Xor;
    EightBits();
    XorBits(d % 0x100, b, b, 8);
    Parts(d / 0x100, Xor(d % 0x100, b, 8), Mixed(d, b));
  }

  lemma {:induction false} MixedTells(d: u64, e: u64, b: byte, c: byte)
    ensures Mixed(d, b) == Mixed(e, b) <==> d == e
    ensures Mixed(d, b) == Mixed(d, c) <==> b == c
  {
    hide Xor, TwoTo, Mixed;
    MixedIs(d, b);
    MixedIs(e, b);
    MixedIs(d, c);
    EightBits();
    XorBits(d % 0x100, b, c, 8);
    XorBits(b, d % 0x100, e % 0x100, 8);
    XorBits(e % 0x100, b, b, 8);
  }

  /** A step tells digests apart under one byte, and bytes under one digest. */
  lemma {:induction false} StepTells(d: u64, e: u64, b: byte, c: byte)
    ensures FnvStep(d, b) == FnvStep(e, b) <==> d == e
    ensures FnvStep(d, b) == FnvStep(d, c) <==> b == c
  {
    hide Xor;
    MixedTells(d, e, b, c);
    MixedIs(d, b);
    MixedIs(e, b);
    MixedIs(d, c);
    assert FnvStep(d, b) == Mixed(d, b) * FNV1A_PRIME % 0x1_0000_0000_0000_0000;
    assert FnvStep(e, b) == Mixed(e, b) * FNV1A_PRIME % 0x1_0000_0000_0000_0000;
    assert FnvStep(d, c) == Mixed(d, c) * FNV1A_PRIME % 0x1_0000_0000_0000_0000;
    PrimeUndone(Mixed(d, b));
    PrimeUndone(Mixed(e, b));
    PrimeUndone(Mixed(d, c));
  }

  /** A fold is one-to-one in the digest it starts from. */
  lemma {:induction false} FoldTellsStart(d: u64, e: u64, bytes: seq<byte>)
    ensures FnvFold(d, bytes) == FnvFold(e, bytes) <==> d == e
    decreases |bytes|
  {
    hide FnvStep;
    if bytes != [] {
      FoldTellsStart(FnvStep(d, bytes[0]), FnvStep(e, bytes[0]), bytes[1..]);
      StepTells(d, e, bytes[0], 0);
    }
  }

  lemma {:induction false} FoldAppend(d: u64, a: seq<byte>, b: seq<byte>)
    ensures FnvFold(d, a + b) == FnvFold(FnvFold(d, a), b)
    decreases |a|
  {
    hide FnvStep;
    if a == [] {
      assert a + b == b;
    } else {
      assert (a + b)[1..] == a[1..] + b;
      FoldAppend(FnvStep(d, a[0]), a[1..], b);
    }
  }

  lemma FoldFirst(d: u64, b: byte, rest: seq<byte>)
    ensures FnvFold(d, [b] + rest) == FnvFold(FnvStep(d, b), rest)
  {
    hide FnvStep;
    assert ([b] + rest)[1..] == rest;
  }

  /** The strings are equally long and differ in exactly one place. */
  predicate OneByteOff(x: seq<byte>, y: seq<byte>) {
    |x| == |y| && exists k | 0 <= k < |x| :: x[k] != y[k] && x[..k] == y[..k] && x[k + 1..] == y[k + 1..]
  }

  lemma {:induction false} ByteTold(d: u64, before: seq<byte>, b: byte, c: byte, after: seq<byte>)
    requires b != c
    ensures FnvFold(d, before + ([b] + after)) != FnvFold(d, before + ([c] + after))
  {
    hide FnvStep, FnvFold;
    var e := FnvFold(d, before);
    FoldAppend(d, before, [b] + after);
    FoldAppend(d, before, [c] + after);
    FoldFirst(e, b, after);
    FoldFirst(e, c, after);
    StepTells(e, e, b, c);
    FoldTellsStart(FnvStep(e, b), FnvStep(e, c), after);
  }

  /** Strings that differ in one byte fold differently. */
  lemma {:induction false} OneByteTold(d: u64, x: seq<byte>, y: seq<byte>)
    requires OneByteOff(x, y)
    ensures FnvFold(d, x) != FnvFold(d, y)
  {
    hide FnvStep, FnvFold;
    var k :| 0 <= k < |x| && x[k] != y[k] && x[..k] == y[..k] && x[k + 1..] == y[k + 1..];
    Around(x, k);
    Around(y, k);
    ByteTold(d, x[..k], x[k], y[k], x[k + 1..]);
  }

  lemma Around(x: seq<byte>, k: nat)
    requires k < |x|
    ensures x == x[..k] + ([x[k]] + x[k + 1..])
  {
  }

  /** The published digests of "" and "a". */
  lemma {:induction false} PublishedDigests()
    ensures FnvFold(FNV1A_OFFSET, []) == 0xcbf2_9ce4_8422_2325
    ensures FnvFold(FNV1A_OFFSET, [0x61]) == 0xaf63_dc4c_8601_ec8c
  {
    hide FnvFold;
    LastXor();
    FirstStep();
    hide FnvStep;
    FoldFirst(FNV1A_OFFSET, 0x61, []);
    assert [0x61] + [] == [0x61];
    FoldNone(FnvStep(FNV1A_OFFSET, 0x61));
    FoldNone(FNV1A_OFFSET);
  }

  lemma FirstStep()
    requires Xor(0x25, 0x61, 8) == 0x44
    ensures FnvStep(FNV1A_OFFSET, 0x61) == 0xaf63_dc4c_8601_ec8c
  {
    hide Xor;
  }

  lemma FoldNone(d: u64)
    ensures FnvFold(d, []) == d
  {
  }

  lemma LastXor()
    ensures Xor(0x25, 0x61, 8) == 0x44
  {
    hide Xor;
    XorNext(0x25, 0x61, 8);
    XorNext(0x12, 0x30, 7);
    XorNext(0x9, 0x18, 6);
    XorNext(0x4, 0xc, 5);
    XorNext(0x2, 0x6, 4);
    XorNext(0x1, 0x3, 3);
    XorNext(0x0, 0x1, 2);
    XorNext(0x0, 0x0, 1);
    XorNone(0, 0);
  }

  lemma XorNone(a: nat, b: nat)
    ensures Xor(a, b, 0) == 0
  {
  }
}
