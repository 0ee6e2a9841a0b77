/** The 64-bit FNV-1a sum that the destination backend takes of a client list,
    four little-endian bytes per window id. */
module Fnv {
  import opened Words

  const OFFSET: uint64 := 0xcbf2_9ce4_8422_2325
  const PRIME: int := 0x100_0000_01b3  // 2^40 + 435

  function XorLow(s: uint64, b: byte): uint64 {
    s / 256 * 256 + Xor(s % 256, b)
  }

  function Step(s: uint64, b: byte): uint64 {
    XorLow(s, b) * PRIME % TWO64
  }

  function LittleEndian(x: uint32): (bs: seq<byte>)
    ensures |bs| == 4
  {
    [x % 256, x / 256 % 256, x / 256 / 256 % 256, x / 256 / 256 / 256]
  }

  function Feed(s: uint64, x: uint32): uint64 {
    Fold(Step, s, LittleEndian(x))
  }

  function Sum(xids: seq<uint32>): uint64 {
    Fold(Feed, OFFSET, xids)
  }

  // ----- each byte, and so each window id, is a bijection on the state -----

  const PRIME_INVERSE: int := 14886173955864302971

  lemma TimesPrimeInjective(a: uint64, b: uint64)
    requires a * PRIME % TWO64 == b * PRIME % TWO64
    ensures a == b
  {
    var d := a - b;
    var q := a * PRIME / TWO64 - b * PRIME / TWO64;
    assert d * PRIME == q * TWO64;
    var k := 887285111055;
    assert PRIME * PRIME_INVERSE == 1 + k * TWO64;
    calc {
      d;
      d * (PRIME * PRIME_INVERSE) - d * (k * TWO64);
      (d * PRIME) * PRIME_INVERSE - (d * k) * TWO64;
      (q * TWO64) * PRIME_INVERSE - (d * k) * TWO64;
      (q * PRIME_INVERSE - d * k) * TWO64;
    }
    OnlyZeroIsSmallMultiple(d, q * PRIME_INVERSE - d * k, TWO64);
  }

  lemma OnlyZeroIsSmallMultiple(d: int, m: int, n: int)
    requires d == m * n && -n < d < n
    ensures d == 0 && m == 0
  {
  }

  lemma XorLowSplit(s: uint64, b: byte)
    ensures XorLow(s, b) % 256 == Xor(s % 256, b)
    ensures XorLow(s, b) / 256 == s / 256
  {
  }

  lemma XorLowInjectiveInState(s: uint64, t: uint64, b: byte)
    requires XorLow(s, b) == XorLow(t, b)
    ensures s == t
  {
    XorUndo(s % 256, b);
    XorUndo(t % 256, b);
    XorLowSplit(s, b);
    XorLowSplit(t, b);
  }

  lemma StepInjectiveInState()
    ensures InjectiveInState(Step)
  {
    forall s, t, b | Step(s, b) == Step(t, b) ensures s == t {
      TimesPrimeInjective(XorLow(s, b), XorLow(t, b));
      XorLowInjectiveInState(s, t, b);
    }
  }

  lemma FeedInjectiveInState()
    ensures InjectiveInState(Feed)
  {
    StepInjectiveInState();
    forall s, t, x | Feed(s, x) == Feed(t, x) ensures s == t {
      if s != t {
        FoldInjectiveInState(Step, s, t, LittleEndian(x));
      }
    }
  }

  // ----- four bytes are injective in the window id -----

  /** The difference of two states after one more byte: the old difference plus
      a correction `d` from the two low bytes, times the prime, up to 2^64. */
  lemma StepDifference(s: uint64, t: uint64, b: byte, c: byte) returns (d: int, m: int)
    ensures XorLow(s, b) - XorLow(t, c) == s - t + d
    ensures Step(s, b) - Step(t, c) == (s - t + d) * PRIME + m * TWO64
    ensures -510 <= d <= 510
    ensures s == t ==> -255 <= d <= 255
  {
    d := Xor(s % 256, b) - s % 256 - (Xor(t % 256, c) - t % 256);
    var u, v := XorLow(s, b), XorLow(t, c);
    m := v * PRIME / TWO64 - u * PRIME / TWO64;
    assert u - v == s - t + d;
    assert u * PRIME - v * PRIME == (u - v) * PRIME;
  }

  /** The arithmetic heart: with corrections this small, the base-PRIME
      combination vanishes modulo 2^64 only when every correction is zero.
      Below 2^40 it is an integer base-435 sum, and above 2^40 what that leaves
      is smaller than 2^24. */
  lemma SmallCombination(d0: int, d1: int, d2: int, d3: int, m: int)
    requires -255 <= d0 <= 255 && -510 <= d1 <= 510 && -510 <= d2 <= 510 && -255 <= d3 <= 255
    requires 1329227997362564068125063396651957931 * d0 + 1208925820571204291060521 * d1 + 1099511628211 * d2 + d3
          == m * 0x1_0000_0000_0000_0000
    ensures d0 == d1 == d2 == d3 == 0
  {
    var low := 82312875 * d0 + 189225 * d1 + 435 * d2 + d3;
    var high := 567675 * d0 + 870 * d1 + d2;
    var over := (0x1_0000 * 1305 + 0x100_0000_0000_0000) * d0 + 0x1_0000 * d1;
    assert low + 0x100_0000_0000 * high == (m - over) * 0x1_0000_0000_0000_0000;
    OnlyZeroIsSmallMultiple(low, 0x100_0000 * (m - over) - high, 0x100_0000_0000);
    var k := LowPart(d0, d1, d2, d3);
    OnlyZeroIsSmallMultiple(high, m - over, 0x100_0000);
  }

  lemma LowPart(d0: int, d1: int, d2: int, d3: int) returns (k: int)
    requires -255 <= d0 <= 255 && -510 <= d1 <= 510 && -510 <= d2 <= 510 && -255 <= d3 <= 255
    requires 82312875 * d0 + 189225 * d1 + 435 * d2 + d3 == 0
    ensures d3 == 0 && d2 == 435 * k && d1 == -435 * d0 - k
    ensures -1 <= k <= 1 && -1 <= d0 <= 1
  {
    OnlyZeroIsSmallMultiple(d3, -(189225 * d0 + 435 * d1 + d2), 435);
    k := -435 * d0 - d1;
  }

  lemma XorLowInjectiveInByte(s: uint64, b: byte, c: byte)
    requires XorLow(s, b) == XorLow(s, c)
    ensures b == c
  {
    XorLowSplit(s, b);
    XorLowSplit(s, c);
    XorCancel(s % 256, b, c);
  }

  /** Three differences in a row, closed by a fourth correction. */
  lemma CorrectionsVanish(e1: int, e2: int, e3: int, d0: int, d1: int, d2: int, m0: int, m1: int, m2: int)
    requires e1 == d0 * PRIME + m0 * TWO64
    requires e2 == (e1 + d1) * PRIME + m1 * TWO64
    requires e3 == (e2 + d2) * PRIME + m2 * TWO64
    requires -255 <= d0 <= 255 && -510 <= d1 <= 510 && -510 <= d2 <= 510 && -255 <= e3 <= 255
    ensures d0 == d1 == d2 == e3 == 0
  {
    var m := -(m0 * (PRIME * PRIME) + m1 * PRIME + m2);
    SmallCombination(d0, d1, d2, -e3, m);
  }

  lemma LastStep(s: uint64, t: uint64, b: byte, c: byte)
    requires Step(s, b) == Step(t, c)
    ensures XorLow(s, b) == XorLow(t, c)
    ensures -255 <= s - t <= 255
  {
    TimesPrimeInjective(XorLow(s, b), XorLow(t, c));
    XorLowSplit(s, b);
    XorLowSplit(t, c);
  }

  /** From one state, four bytes that end in the same state are the same bytes. */
  lemma FourStepsInjective(s: uint64, s1: uint64, s2: uint64, s3: uint64, t1: uint64, t2: uint64, t3: uint64,
                           b: seq<byte>, c: seq<byte>)
    requires |b| == |c| == 4
    requires s1 == Step(s, b[0]) && s2 == Step(s1, b[1]) && s3 == Step(s2, b[2])
    requires t1 == Step(s, c[0]) && t2 == Step(t1, c[1]) && t3 == Step(t2, c[2])
    requires Step(s3, b[3]) == Step(t3, c[3])
    ensures b == c
  {
    var d0, m0 := StepDifference(s, s, b[0], c[0]);
    var d1, m1 := StepDifference(s1, t1, b[1], c[1]);
    var d2, m2 := StepDifference(s2, t2, b[2], c[2]);
    LastStep(s3, t3, b[3], c[3]);
    CorrectionsVanish(s1 - t1, s2 - t2, s3 - t3, d0, d1, d2, m0, m1, m2);
    XorLowInjectiveInByte(s, b[0], c[0]);
    XorLowInjectiveInByte(s1, b[1], c[1]);
    XorLowInjectiveInByte(s2, b[2], c[2]);
    XorLowInjectiveInByte(s3, b[3], c[3]);
    assert forall i | 0 <= i < 4 :: b[i] == c[i];
  }

  lemma FoldFour<S, T>(f: (S, T) -> S, s: S, xs: seq<T>)
    requires |xs| == 4
    ensures Fold(f, s, xs) == f(f(f(f(s, xs[0]), xs[1]), xs[2]), xs[3])
  {
    assert xs[..3][..2][..1] == [xs[0]] && xs[..3][..2] == [xs[0], xs[1]];
    assert Fold(f, s, [xs[0]]) == f(s, xs[0]);
    assert Fold(f, s, [xs[0], xs[1]]) == f(f(s, xs[0]), xs[1]);
  }

  lemma LittleEndianInjective(x: uint32, y: uint32)
    requires LittleEndian(x) == LittleEndian(y)
    ensures x == y
  {
    var b, c := LittleEndian(x), LittleEndian(y);
    assert b[3] == c[3] && b[2] == c[2] && b[1] == c[1] && b[0] == c[0];
    assert x / 256 / 256 == y / 256 / 256;
    assert x / 256 == y / 256;
  }

  /** From one state, different window ids always lead to different states. */
  lemma FeedInjectiveInXid(s: uint64, x: uint32, y: uint32)
    requires x != y
    ensures Feed(s, x) != Feed(s, y)
  {
    if Feed(s, x) == Feed(s, y) {
      FoldFour(Step, s, LittleEndian(x));
      FoldFour(Step, s, LittleEndian(y));
      var b, c := LittleEndian(x), LittleEndian(y);
      var s1, t1 := Step(s, b[0]), Step(s, c[0]);
      var s2, t2 := Step(s1, b[1]), Step(t1, c[1]);
      FourStepsInjective(s, s1, s2, Step(s2, b[2]), t1, t2, Step(t2, c[2]), b, c);
      LittleEndianInjective(x, y);
    }
  }

  /** Replacing exactly one window of a client list always changes its sum. */
  lemma ReplacingOneChangesSum(xids: seq<uint32>, i: nat, x: uint32)
    requires i < |xids| && x != xids[i]
    ensures Sum(xids[i := x]) != Sum(xids)
  {
    var pre, post := xids[..i], xids[i + 1..];
    var s := Sum(pre);
    assert xids == pre + [xids[i]] + post;
    assert xids[i := x] == pre + [x] + post;
    SumSplit(pre, xids[i], post);
    SumSplit(pre, x, post);
    FeedInjectiveInXid(s, x, xids[i]);
    FeedInjectiveInState();
    FoldInjectiveInState(Feed, Feed(s, x), Feed(s, xids[i]), post);
  }

  lemma SumSplit(pre: seq<uint32>, x: uint32, post: seq<uint32>)
    ensures Sum(pre + [x] + post) == Fold(Feed, Feed(Sum(pre), x), post)
  {
    FoldConcat(Feed, OFFSET, pre + [x], post);
    assert (pre + [x])[..|pre|] == pre;
  }

  /** Reads one step off a worked example: `low` is the low byte, `x` its
      exclusive-or with `b`, and `q` the number of overflows of 2^64. */
  lemma StepIs(s: uint64, low: byte, b: byte, x: byte, q: nat, r: uint64)
    requires s % 256 == low && Xor(low, b) == x
    requires (s - low + x) * PRIME == q * TWO64 + r
    ensures Step(s, b) == r
  {
    assert XorLow(s, b) * PRIME == q * TWO64 + r;
  }

  lemma FeedIs(s: uint64, x: uint32, b: seq<byte>, s1: uint64, s2: uint64, s3: uint64, s4: uint64)
    requires |b| == 4 && LittleEndian(x) == b
    requires s1 == Step(s, b[0]) && s2 == Step(s1, b[1]) && s3 == Step(s2, b[2]) && s4 == Step(s3, b[3])
    ensures Feed(s, x) == s4
  {
    FoldFour(Step, s, LittleEndian(x));
  }

  lemma LittleEndianIs(x: uint32, b0: int, b1: int, b2: int, b3: int)
    requires 0 <= b0 < 256 && 0 <= b1 < 256 && 0 <= b2 < 256 && 0 <= b3 < 256
    requires x == b0 + 256 * (b1 + 256 * (b2 + 256 * b3))
    ensures LittleEndian(x) == [b0, b1, b2, b3]
  {
    assert x / 256 == b1 + 256 * (b2 + 256 * b3);
    assert x / 256 / 256 == b2 + 256 * b3;
  }

  lemma SumOfTwo(x: uint32, y: uint32)
    ensures Sum([x, y]) == Feed(Feed(OFFSET, x), y)
  {
    SumSplit([], x, [y]);
    assert [] + [x] + [y] == [x, y];
  }

  lemma ZeroSumSteps1()
    ensures Step(14695981039346656037, 0xd5) == 12638376316555694288
    ensures Step(12638376316555694288, 0x6b) == 784845726696172993
  {
    Pow2Table();
    assert XorBits(8, 0x25, 0xd5) == 0xf0;
    StepIs(14695981039346656037, 0x25, 0xd5, 0xf0, 875948729822, 12638376316555694288);
    assert XorBits(8, 0xd0, 0x6b) == 0xbb;
    StepIs(12638376316555694288, 0xd0, 0x6b, 0xbb, 753305931184, 784845726696172993);
  }

  lemma ZeroSumSteps2()
    ensures Step(784845726696172993, 0xb9) == 13216362983930266344
    ensures Step(13216362983930266344, 0x53) == 8218091972537066433
  {
    Pow2Table();
    assert XorBits(8, 0xc1, 0xb9) == 0x78;
    StepIs(784845726696172993, 0xc1, 0xb9, 0x78, 46780450761, 13216362983930266344);
    assert XorBits(8, 0xe8, 0x53) == 0xbb;
    StepIs(13216362983930266344, 0xe8, 0x53, 0xbb, 787756621191, 8218091972537066433);
  }

  lemma ZeroSumSteps3()
    ensures Step(8218091972537066433, 0x42) == 6551918158621628313
    ensures Step(6551918158621628313, 0x87) == 10643398447161640954
  {
    Pow2Table();
    assert XorBits(8, 0xc1, 0x42) == 0x83;
    StepIs(8218091972537066433, 0xc1, 0x42, 0x83, 489836452948, 6551918158621628313);
    assert XorBits(8, 0x99, 0x87) == 0x1e;
    StepIs(6551918158621628313, 0x99, 0x87, 0x1e, 390524754596, 10643398447161640954);
  }

  lemma ZeroSumSteps4()
    ensures Step(10643398447161640954, 0x08) == 54
    ensures Step(54, 0x36) == 0
  {
    Pow2Table();
    assert XorBits(8, 0xfa, 0x08) == 0xf2;
    StepIs(10643398447161640954, 0xfa, 0x08, 0xf2, 634395983897, 54);
    assert XorBits(8, 0x36, 0x36) == 0x00;
    StepIs(54, 0x36, 0x36, 0x00, 0, 0);
  }

  lemma ZeroSumFirst(x: uint32, b: seq<byte>)
    requires x == 0x53b9_6bd5 && b == [0xd5, 0x6b, 0xb9, 0x53]
    ensures Feed(OFFSET, x) == 8218091972537066433
  {
    LittleEndianIs(x, 0xd5, 0x6b, 0xb9, 0x53);
    ZeroSumSteps1();
    ZeroSumSteps2();
    FeedIs(OFFSET, x, b, 12638376316555694288, 784845726696172993, 13216362983930266344, 8218091972537066433);
  }

  lemma ZeroSumSecond(x: uint32, b: seq<byte>)
    requires x == 0x3608_8742 && b == [0x42, 0x87, 0x08, 0x36]
    ensures Feed(8218091972537066433, x) == 0
  {
    LittleEndianIs(x, 0x42, 0x87, 0x08, 0x36);
    ZeroSumSteps3();
    ZeroSumSteps4();
    FeedIs(8218091972537066433, x, b, 6551918158621628313, 10643398447161640954, 54, 0);
  }

  /** The sum 0, which the backend reads as "nothing observed yet", is the sum
      of a real list of two windows. */
  lemma ZeroSumList(xids: seq<uint32>)
    requires xids == [0x53b9_6bd5, 0x3608_8742]
    ensures Sum(xids) == 0
  {
    ZeroSumFirst(xids[0], [0xd5, 0x6b, 0xb9, 0x53]);
    ZeroSumSecond(xids[1], [0x42, 0x87, 0x08, 0x36]);
    SumOfTwo(xids[0], xids[1]);
  }

  lemma NotBothZero(xids: seq<uint32>, i: nat, x: uint32) returns (ys: seq<uint32>)
    requires i < |xids| && x != xids[i]
    ensures ys == xids || ys == xids[i := x]
    ensures Sum(ys) != 0
  {
    ReplacingOneChangesSum(xids, i, x);
    ys := if Sum(xids) == 0 then xids[i := x] else xids;
  }

  /** Every window is in some list whose sum is not 0. */
  lemma NonzeroListWith(x: uint32) returns (xids: seq<uint32>)
    ensures x in xids && Sum(xids) != 0
  {
    var y: uint32 := 0;
    xids := NotBothZero([x, y], 1, 1);
    assert xids[0] == x;
  }

  // ----- the hashing loop -----

  /** The running hash takes in a buffer, one byte after the other. */
  method Write(h: uint64, buffer: array<byte>) returns (sum: uint64)
    ensures sum == Fold(Step, h, buffer[..])
  {
    sum := h;
    for j := 0 to buffer.Length
      invariant sum == Fold(Step, h, buffer[..j])
    {
      assert buffer[..j + 1][..j] == buffer[..j];
      sum := Step(sum, buffer[j]);
    }
    assert buffer[..buffer.Length] == buffer[..];
  }

  method PutUint32(buffer: array<byte>, x: uint32)
    requires buffer.Length == 4
    modifies buffer
    ensures buffer[..] == LittleEndian(x)
  {
    buffer[0] := x % 256;
    buffer[1] := x / 256 % 256;
    buffer[2] := x / 256 / 256 % 256;
    buffer[3] := x / 256 / 256 / 256;
  }

  /** The loop of both backend methods: encode an id into a four-byte buffer,
      write the buffer to the running hash, and go on. */
  method HashList(xids: seq<uint32>) returns (sum: uint64)
    ensures sum == Sum(xids)
  {
    sum := OFFSET;
    var encoded := new byte[4];
    for i := 0 to |xids|
      invariant sum == Fold(Feed, OFFSET, xids[..i])
    {
      assert xids[..i + 1][..i] == xids[..i];
      PutUint32(encoded, xids[i]);
      sum := Write(sum, encoded);
    }
    assert xids[..|xids|] == xids;
  }
}
