/** The CRC-8 that guards every SHT30 reading (applications/sht30App.c):
    polynomial x^8 + x^5 + x^4 + 1, initial value 0xFF, most significant bit first.

    The laws of such a checksum use nothing about bytes but these: exclusive-or is a group in
    which every element is its own inverse, and shifting the register by one bit is linear and
    invertible.  They are proved for any Register with those laws; the driver's is one. */
module ShiftRegister {

  datatype Register<!T> = Register(xor: (T, T) -> T, zero: T, shift: T -> T, unshift: T -> T)
  {
    function Shifts(c: T, n: nat): T {
      if n == 0 then c else shift(Shifts(c, n - 1))
    }

    /** The register after the bytes of data have been fed to it. */
    function Feed(c: T, data: seq<T>): T {
      if data == [] then c else Shifts(xor(Feed(c, data[..|data| - 1]), data[|data| - 1]), 8)
    }
  }

  ghost predicate Associative<T(!new)>(xor: (T, T) -> T) {
    forall a, b, c {:trigger xor(xor(a, b), c), xor(a, xor(b, c))} :: xor(xor(a, b), c) == xor(a, xor(b, c))
  }

  ghost predicate Commutative<T(!new)>(xor: (T, T) -> T) {
    forall a, b {:trigger xor(a, b), xor(b, a)} :: xor(a, b) == xor(b, a)
  }

  ghost predicate SelfInverse<T(!new)>(xor: (T, T) -> T, zero: T) {
    && (forall a, b {:trigger xor(xor(a, b), b)} :: xor(xor(a, b), b) == a)
    && (forall a {:trigger xor(a, zero)} :: xor(a, zero) == a)
    && (forall a {:trigger xor(zero, a)} :: xor(zero, a) == a)
    && (forall a {:trigger xor(a, a)} :: xor(a, a) == zero)
  }

  ghost predicate XorLawful<T(!new)>(r: Register<T>) {
    Associative(r.xor) && Commutative(r.xor) && SelfInverse(r.xor, r.zero)
  }

  ghost predicate Linear<T(!new)>(shift: T -> T, xor: (T, T) -> T) {
    forall a, b {:trigger shift(xor(a, b))} :: shift(xor(a, b)) == xor(shift(a), shift(b))
  }

  ghost predicate Inverts<T(!new)>(undo: T -> T, f: T -> T) {
    forall a {:trigger undo(f(a))} :: undo(f(a)) == a
  }

  /** A shift is linear, and can be undone. */
  ghost predicate ShiftLawful<T(!new)>(r: Register<T>) {
    Linear(r.shift, r.xor) && Inverts(r.unshift, r.shift) && Inverts(r.shift, r.unshift) && r.shift(r.zero) == r.zero
  }

  ghost predicate Lawful<T(!new)>(r: Register<T>) {
    XorLawful(r) && ShiftLawful(r)
  }

  lemma Regroup<T(!new)>(r: Register<T>, a: T, b: T, c: T, d: T)
    requires XorLawful(r)
    ensures r.xor(r.xor(a, b), r.xor(c, d)) == r.xor(r.xor(a, c), r.xor(b, d))
  {
    calc {
      r.xor(r.xor(a, b), r.xor(c, d));
      r.xor(a, r.xor(b, r.xor(c, d)));
      r.xor(a, r.xor(r.xor(b, c), d));
      r.xor(a, r.xor(r.xor(c, b), d));
      r.xor(a, r.xor(c, r.xor(b, d)));
      r.xor(r.xor(a, c), r.xor(b, d));
    }
  }

  function Diff<T>(r: Register<T>, a: seq<T>, b: seq<T>): (d: seq<T>)
    requires |a| == |b|
    ensures |d| == |a| && forall i :: 0 <= i < |d| ==> d[i] == r.xor(a[i], b[i])
  {
    seq(|a|, i requires 0 <= i < |a| => r.xor(a[i], b[i]))
  }

  lemma {:induction false} ShiftsAreLinear<T(!new)>(r: Register<T>, a: T, b: T, n: nat)
    requires Lawful(r)
    ensures r.Shifts(r.xor(a, b), n) == r.xor(r.Shifts(a, n), r.Shifts(b, n))
  {
    if n > 0 {
      ShiftsAreLinear(r, a, b, n - 1);
    }
  }

  lemma {:induction false} ShiftsAreInjective<T(!new)>(r: Register<T>, a: T, b: T, n: nat)
    requires Lawful(r) && r.Shifts(a, n) == r.Shifts(b, n)
    ensures a == b
  {
    if n > 0 {
      assert r.unshift(r.Shifts(a, n)) == r.Shifts(a, n - 1);
      ShiftsAreInjective(r, a, b, n - 1);
    }
  }

  lemma {:induction false} ShiftsOfZero<T(!new)>(r: Register<T>, n: nat)
    requires Lawful(r)
    ensures r.Shifts(r.zero, n) == r.zero
  {
    if n > 0 {
      ShiftsOfZero(r, n - 1);
    }
  }

  /** The checksums of two messages differ by the checksum of their difference. */
  lemma {:induction false} FeedIsLinear<T(!new)>(r: Register<T>, c: T, d: T, a: seq<T>, b: seq<T>)
    requires Lawful(r) && |a| == |b|
    ensures r.xor(r.Feed(c, a), r.Feed(d, b)) == r.Feed(r.xor(c, d), Diff(r, a, b))
  {
    if a != [] {
      var n := |a| - 1;
      FeedIsLinear(r, c, d, a[..n], b[..n]);
      assert Diff(r, a, b)[..n] == Diff(r, a[..n], b[..n]);
      Regroup(r, r.Feed(c, a[..n]), a[n], r.Feed(d, b[..n]), b[n]);
      ShiftsAreLinear(r, r.xor(r.Feed(c, a[..n]), a[n]), r.xor(r.Feed(d, b[..n]), b[n]), 8);
    }
  }

  lemma {:induction false} FeedConcat<T>(r: Register<T>, c: T, a: seq<T>, b: seq<T>)
    ensures r.Feed(c, a + b) == r.Feed(r.Feed(c, a), b)
  {
    if b == [] {
      assert a + b == a;
    } else {
      FeedConcat(r, c, a, b[..|b| - 1]);
      assert (a + b)[..|a + b| - 1] == a + b[..|b| - 1];
    }
  }

  /** Zero bytes neither create nor destroy a difference in the register. */
  lemma {:induction false} FeedZeros<T(!new)>(r: Register<T>, c: T, zeros: seq<T>)
    requires Lawful(r) && forall k :: 0 <= k < |zeros| ==> zeros[k] == r.zero
    ensures r.Feed(c, zeros) == r.zero <==> c == r.zero
  {
    if zeros != [] {
      FeedZeros(r, c, zeros[..|zeros| - 1]);
      ShiftsOfZero(r, 8);
      if r.Feed(c, zeros) == r.zero {
        ShiftsAreInjective(r, r.Feed(c, zeros[..|zeros| - 1]), r.zero, 8);
      }
    }
  }


  lemma {:induction false} FeedIsInjective<T(!new)>(r: Register<T>, c: T, d: T, data: seq<T>)
    requires Lawful(r) && r.Feed(c, data) == r.Feed(d, data)
    ensures c == d
  {
    if data != [] {
      var n := |data| - 1;
      var x, y := r.Feed(c, data[..n]), r.Feed(d, data[..n]);
      ShiftsAreInjective(r, r.xor(x, data[n]), r.xor(y, data[n]), 8);
      assert r.xor(r.xor(x, data[n]), data[n]) == r.xor(r.xor(y, data[n]), data[n]);
      FeedIsInjective(r, c, d, data[..n]);
    }
  }

  /** Two messages that differ in one place have different checksums. */
  lemma OneDifference<T(!new)>(r: Register<T>, c: T, a: seq<T>, b: seq<T>, p: nat)
    requires Lawful(r) && |a| == |b| && p < |a|
    requires forall i :: 0 <= i < |a| && i != p ==> a[i] == b[i]
    ensures r.Feed(c, a) == r.Feed(c, b) <==> a[p] == b[p]
  {
    var common, rest := a[..p], a[p + 1..];
    assert a == (common + [a[p]]) + rest && b == (common + [b[p]]) + rest;
    FeedConcat(r, c, common + [a[p]], rest);
    FeedConcat(r, c, common + [b[p]], rest);
    if r.Feed(c, a) == r.Feed(c, b) {
      FeedIsInjective(r, r.Feed(c, common + [a[p]]), r.Feed(c, common + [b[p]]), rest);
      assert (common + [a[p]])[..p] == common == (common + [b[p]])[..p];
      var x := r.Feed(c, common);
      ShiftsAreInjective(r, r.xor(x, a[p]), r.xor(x, b[p]), 8);
      Regroup(r, x, a[p], x, b[p]);
      assert r.xor(r.xor(a[p], b[p]), b[p]) == a[p];
    }
  }

  /** What a difference confined to two neighbouring places leaves in the register. */
  lemma FeedPair<T(!new)>(r: Register<T>, diff: seq<T>, p: nat)
    requires Lawful(r) && p + 1 < |diff|
    requires forall i :: 0 <= i < |diff| && i != p && i != p + 1 ==> diff[i] == r.zero
    ensures r.Feed(r.zero, diff) == r.zero <==> r.Feed(r.Feed(r.zero, [diff[p]]), [diff[p + 1]]) == r.zero
  {
    var before, one, two, after := diff[..p], diff[..p + 1], diff[..p + 2], diff[p + 2..];
    FeedZeros(r, r.zero, before);
    assert one == before + [diff[p]];
    FeedConcat(r, r.zero, before, [diff[p]]);
    assert two == one + [diff[p + 1]];
    FeedConcat(r, r.zero, one, [diff[p + 1]]);
    assert diff == two + after;
    FeedConcat(r, r.zero, two, after);
    FeedZeros(r, r.Feed(r.zero, two), after);
  }

  /** Two messages that differ in two neighbouring places have different checksums, if the
      register tells that pair of differences from no difference. */
  lemma PairOfDifferences<T(!new)>(r: Register<T>, c: T, a: seq<T>, b: seq<T>, p: nat)
    requires Lawful(r) && |a| == |b| && p + 1 < |a|
    requires forall i :: 0 <= i < |a| && i != p && i != p + 1 ==> a[i] == b[i]
    requires
      var d, e := r.xor(a[p], b[p]), r.xor(a[p + 1], b[p + 1]);
      r.Feed(r.Feed(r.zero, [d]), [e]) == r.zero ==> d == r.zero && e == r.zero
    ensures r.Feed(c, a) == r.Feed(c, b) <==> a == b
  {
    if r.Feed(c, a) == r.Feed(c, b) {
      EqualSums(r, c, a, b);
      var diff := Diff(r, a, b);
      forall i | 0 <= i < |diff| && i != p && i != p + 1 ensures diff[i] == r.zero {
        assert r.xor(a[i], a[i]) == r.zero;
      }
      FeedPair(r, diff, p);
      Cancel(r, a[p], b[p]);
      Cancel(r, a[p + 1], b[p + 1]);
      assert a == b;
    }
  }

  lemma EqualSums<T(!new)>(r: Register<T>, c: T, a: seq<T>, b: seq<T>)
    requires Lawful(r) && |a| == |b| && r.Feed(c, a) == r.Feed(c, b)
    ensures r.Feed(r.zero, Diff(r, a, b)) == r.zero
  {
    FeedIsLinear(r, c, c, a, b);
    assert r.xor(c, c) == r.zero;
    assert r.xor(r.Feed(c, a), r.Feed(c, a)) == r.zero;
  }

  lemma Cancel<T(!new)>(r: Register<T>, x: T, y: T)
    requires Lawful(r) && r.xor(x, y) == r.zero
    ensures x == y
  {
    assert r.xor(r.xor(x, y), y) == x;
  }
}

/** The register of the driver, on eight-bit words. */
module Crc8Bits {

  function BitStep(crc: bv8): bv8 {
    (crc << 1) ^ (if crc & 0x80 != 0 then 0x31 else 0)
  }

  /** The bit that was shifted out is the constant term of the polynomial. */
  function BitUnstep(crc: bv8): bv8 {
    if crc & 1 != 0 then ((crc ^ 0x31) >> 1) | 0x80 else crc >> 1
  }

  function ByteStep(crc: bv8, b: bv8): bv8 {
    BitStep(BitStep(BitStep(BitStep(BitStep(BitStep(BitStep(BitStep(crc ^ b))))))))
  }

  function Xor(a: bv8, b: bv8): bv8 {
    a ^ b
  }

  lemma XorAssociates(a: bv8, b: bv8, c: bv8)
    ensures Xor(Xor(a, b), c) == Xor(a, Xor(b, c))
  {
  }

  lemma XorCommutes(a: bv8, b: bv8)
    ensures Xor(a, b) == Xor(b, a)
  {
  }

  lemma XorCancels(a: bv8, b: bv8)
    ensures Xor(Xor(a, b), b) == a && Xor(a, 0) == a && Xor(0, a) == a && Xor(a, a) == 0
  {
  }

  lemma ShiftIsLinear(a: bv8, b: bv8)
    ensures (a ^ b) << 1 == (a << 1) ^ (b << 1)
    ensures (a ^ b) & 0x80 != 0 <==> (a & 0x80 != 0) != (b & 0x80 != 0)
  {
  }

  lemma XorOfPairs(a: bv8, b: bv8, c: bv8, d: bv8)
    ensures (a ^ c) ^ (b ^ d) == (a ^ b) ^ (c ^ d)
  {
  }

  lemma BitStepIsLinear(a: bv8, b: bv8)
    ensures BitStep(a ^ b) == BitStep(a) ^ BitStep(b)
  {
    ShiftIsLinear(a, b);
    XorOfPairs(a << 1, b << 1, if a & 0x80 != 0 then 0x31 else 0, if b & 0x80 != 0 then 0x31 else 0);
  }

  lemma BitStepIsBijective(a: bv8)
    ensures BitUnstep(BitStep(a)) == a && BitStep(BitUnstep(a)) == a
  {
  }

  /** The nonzero bits of the byte pair (d, e) lie in one window of eight consecutive bits:
      the last k bits of d and the first 8 - k bits of e. */
  predicate InWindow(d: bv8, e: bv8, k: nat)
    requires k <= 8
  {
    && d & [0x00, 0x01, 0x03, 0x07, 0x0F, 0x1F, 0x3F, 0x7F, 0xFF][k] == d
    && e & [0xFF, 0xFE, 0xFC, 0xF8, 0xF0, 0xE0, 0xC0, 0x80, 0x00][k] == e
  }

  lemma BurstIsSeen(d: bv8, e: bv8, k: nat)
    requires k <= 8 && InWindow(d, e, k) && ByteStep(ByteStep(0, d), e) == 0
    ensures d == 0 && e == 0
  {
    var c := ByteStep(0, d);
  }
}

module Crc8 {
  import opened ShiftRegister
  import opened Crc8Bits

  const SHT30: Register<bv8> := Register(Xor, 0, BitStep, BitUnstep)
  const INIT: bv8 := 0xFF

  function Crc(data: seq<bv8>): bv8 {
    SHT30.Feed(INIT, data)
  }

  lemma XorIsAssociative()
    ensures Associative(Xor)
  {
    forall a, b, c ensures Xor(Xor(a, b), c) == Xor(a, Xor(b, c)) {
      XorAssociates(a, b, c);
    }
  }

  lemma XorIsCommutative()
    ensures Commutative(Xor)
  {
    forall a, b ensures Xor(a, b) == Xor(b, a) {
      XorCommutes(a, b);
    }
  }

  lemma XorIsSelfInverse()
    ensures SelfInverse(Xor, 0)
  {
    forall a, b ensures Xor(Xor(a, b), b) == a {
      XorCancels(a, b);
    }
    forall a ensures Xor(a, 0) == a && Xor(0, a) == a && Xor(a, a) == 0 {
      XorCancels(a, a);
    }
  }

  lemma BitStepIsLawful()
    ensures Linear(BitStep, Xor)
    ensures Inverts(BitUnstep, BitStep) && Inverts(BitStep, BitUnstep)
  {
    forall a, b ensures BitStep(Xor(a, b)) == Xor(BitStep(a), BitStep(b)) {
      BitStepIsLinear(a, b);
    }
    forall a ensures BitUnstep(BitStep(a)) == a {
      BitStepIsBijective(a);
    }
    forall a ensures BitStep(BitUnstep(a)) == a {
      BitStepIsBijective(a);
    }
  }

  /** One bit step is linear and a bijection, so every byte step is a bijection too. */
  lemma Sht30IsLawful()
    ensures Lawful(SHT30)
  {
    XorIsAssociative();
    XorIsCommutative();
    XorIsSelfInverse();
    BitStepIsLawful();
  }

  method Sht30Crc8(data: array<bv8>, len: nat) returns (crc: bv8)
    requires len <= data.Length
    ensures crc == Crc(data[..len])
  {
    crc := INIT;
    for i := 0 to len
      invariant crc == Crc(data[..i])
    {
      crc := crc ^ data[i];
      ghost var mixed := crc;
      for j := 0 to 8
        invariant crc == SHT30.Shifts(mixed, j)
      {
        if crc & 0x80 != 0 {
          crc := (crc << 1) ^ 0x31;
        } else {
          crc := crc << 1;
        }
      }
      assert data[..i + 1][..i] == data[..i];
    }
  }

  /** Crc(a) xor Crc(b) is a function of the difference of the messages alone. */
  lemma CrcDifference(a: seq<bv8>, b: seq<bv8>)
    requires |a| == |b|
    ensures SHT30.xor(Crc(a), Crc(b)) == SHT30.Feed(0, Diff(SHT30, a, b))
  {
    Sht30IsLawful();
    FeedIsLinear(SHT30, INIT, INIT, a, b);
  }

  lemma FeedOne(crc: bv8, b: bv8)
    ensures SHT30.Feed(crc, [b]) == ByteStep(crc, b)
  {
    var x := SHT30.xor(crc, b);
    assert SHT30.Shifts(x, 1) == BitStep(SHT30.Shifts(x, 0));
    assert SHT30.Shifts(x, 2) == BitStep(SHT30.Shifts(x, 1));
    assert SHT30.Shifts(x, 3) == BitStep(SHT30.Shifts(x, 2));
    assert SHT30.Shifts(x, 4) == BitStep(SHT30.Shifts(x, 3));
    assert SHT30.Shifts(x, 5) == BitStep(SHT30.Shifts(x, 4));
    assert SHT30.Shifts(x, 6) == BitStep(SHT30.Shifts(x, 5));
    assert SHT30.Shifts(x, 7) == BitStep(SHT30.Shifts(x, 6));
    assert [b][..0] == [];
  }

  /** One corrupted byte, whatever became of it and however long the message, changes the CRC. */
  lemma ByteErrorsAreDetected(a: seq<bv8>, b: seq<bv8>, p: nat)
    requires |a| == |b| && p < |a|
    requires forall i :: 0 <= i < |a| && i != p ==> a[i] == b[i]
    ensures Crc(a) == Crc(b) <==> a[p] == b[p]
  {
    Sht30IsLawful();
    OneDifference(SHT30, INIT, a, b, p);
  }

  /** So does a burst: two messages that agree outside some window of eight consecutive bits
      lying across a byte boundary have the same CRC only if they are the same message. */
  lemma BurstErrorsAreDetected(a: seq<bv8>, b: seq<bv8>, p: nat, k: nat)
    requires |a| == |b| && p + 1 < |a| && k <= 8
    requires forall i :: 0 <= i < |a| && i != p && i != p + 1 ==> a[i] == b[i]
    requires InWindow(a[p] ^ b[p], a[p + 1] ^ b[p + 1], k)
    ensures Crc(a) == Crc(b) <==> a == b
  {
    Sht30IsLawful();
    var d, e := SHT30.xor(a[p], b[p]), SHT30.xor(a[p + 1], b[p + 1]);
    FeedOne(0, d);
    FeedOne(ByteStep(0, d), e);
    if ByteStep(ByteStep(0, d), e) == 0 {
      BurstIsSeen(d, e, k);
    }
    PairOfDifferences(SHT30, INIT, a, b, p);
  }
}
