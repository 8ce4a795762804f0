/** The checksum of the SHT30 as a remainder.  A polynomial over the integers modulo 2 is a number, whose bit e is the
    coefficient of x^e: x^8 + x^5 + x^4 + 1 is 0x131 (applications/sht30App.c:18-35). */
module CrcPolynomial {
  import opened ShiftRegister
  import opened Crc8Bits
  import opened Crc8

  const GENERATOR: nat := 0x131

  /** The sum: an addition without carries */
  function Plus(a: nat, b: nat): nat {
    if a == 0 then b else if b == 0 then a else (if a % 2 == b % 2 then 0 else 1) + 2 * Plus(a / 2, b / 2)
  }

  /** The product with x^k */
  function TimesPower(a: nat, k: nat): nat {
    if k == 0 then a else 2 * TimesPower(a, k - 1)
  }

  /** The product: a multiplication without carries */
  function Times(q: nat, a: nat): nat {
    if q == 0 then 0 else Plus(if q % 2 == 1 then a else 0, 2 * Times(q / 2, a))
  }

  /** A message as one number, its first byte the highest */
  function OfMessage(data: seq<bv8>): nat {
    if data == [] then 0 else 256 * OfMessage(data[..|data| - 1]) + data[|data| - 1] as nat
  }

  // ------------------------------------------------------------------ arithmetic

  lemma {:induction false} PlusCommutes(a: nat, b: nat)
    ensures Plus(a, b) == Plus(b, a) && Plus(a, 0) == a
  {
    if a > 0 && b > 0 {
      PlusCommutes(a / 2, b / 2);
    }
  }

  lemma {:induction false} PlusAssociates(a: nat, b: nat, c: nat)
    ensures Plus(Plus(a, b), c) == Plus(a, Plus(b, c))
  {
    if a > 0 && b > 0 && c > 0 {
      PlusAssociates(a / 2, b / 2, c / 2);
      HalvesOfPlus(a, b);
      HalvesOfPlus(b, c);
      HalvesOfPlus(Plus(a, b), c);
      HalvesOfPlus(a, Plus(b, c));
    }
  }

  lemma HalvesOfPlus(a: nat, b: nat)
    ensures Plus(a, b) / 2 == Plus(a / 2, b / 2)
    ensures Plus(a, b) % 2 == if a % 2 == b % 2 then 0 else 1
  {
    PlusCommutes(a, b);
    PlusCommutes(a / 2, b / 2);
  }

  lemma {:induction false} PlusCancels(a: nat)
    ensures Plus(a, a) == 0
  {
    if a > 0 {
      PlusCancels(a / 2);
    }
  }

  lemma PlusDoubles(a: nat, b: nat)
    ensures Plus(2 * a, 2 * b) == 2 * Plus(a, b)
  {
    HalvesOfPlus(2 * a, 2 * b);
  }

  lemma PlusRegroups(a: nat, b: nat, c: nat, d: nat)
    ensures Plus(Plus(a, b), Plus(c, d)) == Plus(Plus(a, c), Plus(b, d))
  {
    PlusAssociates(a, b, Plus(c, d));
    PlusAssociates(b, c, d);
    PlusCommutes(b, c);
    PlusAssociates(c, b, d);
    PlusAssociates(a, c, Plus(b, d));
  }

  /** Where no bits meet, it is ordinary addition. */
  lemma {:induction false} PlusBelow(a: nat, b: nat, k: nat)
    requires b < TimesPower(1, k)
    ensures Plus(TimesPower(a, k), b) == TimesPower(a, k) + b
  {
    PlusCommutes(TimesPower(a, k), b);
    if k > 0 && b > 0 && a > 0 {
      PlusBelow(a, b / 2, k - 1);
      HalvesOfPlus(TimesPower(a, k), b);
    }
    if a == 0 {
      PowerOfZero(k);
    }
  }

  lemma {:induction false} PowerOfZero(k: nat)
    ensures TimesPower(0, k) == 0
  {
    if k > 0 {
      PowerOfZero(k - 1);
    }
  }

  lemma {:induction false} PowerDistributes(a: nat, b: nat, k: nat)
    ensures TimesPower(Plus(a, b), k) == Plus(TimesPower(a, k), TimesPower(b, k))
  {
    if k > 0 {
      PowerDistributes(a, b, k - 1);
      PlusDoubles(TimesPower(a, k - 1), TimesPower(b, k - 1));
    }
  }

  lemma TwoPowers(a: nat, k: nat)
    ensures TimesPower(a, k + 2) == 4 * TimesPower(a, k)
  {
    assert TimesPower(a, k + 1) == 2 * TimesPower(a, k);
  }

  lemma EighthPower(a: nat)
    ensures TimesPower(a, 8) == 256 * a
  {
    TwoPowers(a, 0);
    TwoPowers(a, 2);
    TwoPowers(a, 4);
    TwoPowers(a, 6);
  }

  lemma {:induction false} PowersAdd(a: nat, j: nat, k: nat)
    ensures TimesPower(TimesPower(a, j), k) == TimesPower(a, j + k)
  {
    if k > 0 {
      PowersAdd(a, j, k - 1);
    }
  }

  lemma {:induction false} TimesDistributes(p: nat, q: nat, a: nat)
    ensures Times(Plus(p, q), a) == Plus(Times(p, a), Times(q, a))
  {
    PlusCommutes(Times(p, a), 0);
    if p > 0 && q > 0 {
      TimesDistributes(p / 2, q / 2, a);
      HalvesOfPlus(p, q);
      var p1, q1 := if p % 2 == 1 then a else 0, if q % 2 == 1 then a else 0;
      PlusDoubles(Times(p / 2, a), Times(q / 2, a));
      PlusRegroups(p1, 2 * Times(p / 2, a), q1, 2 * Times(q / 2, a));
      PlusCancels(a);
      PlusCommutes(a, 0);
      TimesOfHalves(Plus(p, q), a);
    }
  }

  lemma TimesOfHalves(q: nat, a: nat)
    ensures Times(q, a) == Plus(if q % 2 == 1 then a else 0, 2 * Times(q / 2, a))
  {
  }

  lemma {:induction false} TimesOfPower(q: nat, k: nat, a: nat)
    ensures Times(TimesPower(q, k), a) == TimesPower(Times(q, a), k)
  {
    if k > 0 {
      TimesOfPower(q, k - 1, a);
      TimesOfHalves(2 * TimesPower(q, k - 1), a);
    }
  }

  // ------------------------------------------------------------------- the bytes

  lemma Halved(a: bv8)
    ensures (a >> 1) as nat == a as nat / 2 && (a & 1) as nat == a as nat % 2
  {
  }

  lemma Doubled(a: bv8)
    ensures 2 * a as nat == (a << 1) as nat + (if a & 0x80 != 0 then 256 else 0)
  {
  }

  lemma XorHalves(a: bv8, b: bv8)
    ensures (a ^ b) >> 1 == (a >> 1) ^ (b >> 1)
    ensures (a ^ b) & 1 == if a & 1 == b & 1 then 0 else 1
  {
  }

  lemma XorInHalves(a: bv8, b: bv8)
    ensures (a ^ b) as nat / 2 == ((a >> 1) ^ (b >> 1)) as nat
    ensures (a ^ b) as nat % 2 == if a as nat % 2 == b as nat % 2 then 0 else 1
  {
    Halved(a);
    Halved(b);
    Halved(a ^ b);
    XorHalves(a, b);
    if a & 1 != b & 1 {
      OneBit(a);
      OneBit(b);
    }
  }

  lemma OneBit(a: bv8)
    ensures a & 1 == if a as nat % 2 == 1 then 1 else 0
  {
    Halved(a);
  }

  lemma {:induction false} XorIsPlus(a: bv8, b: bv8)
    ensures (a ^ b) as nat == Plus(a as nat, b as nat)
    decreases a as nat
  {
    if a == 0 {
      XorWithZero(b);
    } else {
      Smaller(a);
      XorIsPlus(a >> 1, b >> 1);
      XorOfHalves(a, b);
    }
  }

  lemma XorWithZero(b: bv8)
    ensures (0 ^ b) as nat == b as nat
  {
    assert 0 ^ b == b;
  }

  lemma Smaller(a: bv8)
    requires a != 0
    ensures (a >> 1) as nat < a as nat
  {
  }

  lemma XorOfHalves(a: bv8, b: bv8)
    requires ((a >> 1) ^ (b >> 1)) as nat == Plus((a >> 1) as nat, (b >> 1) as nat)
    ensures (a ^ b) as nat == Plus(a as nat, b as nat)
  {
    Halved(a);
    Halved(b);
    XorInHalves(a, b);
    FromHalves(a as nat, b as nat, (a >> 1) as nat, (b >> 1) as nat, (a ^ b) as nat);
  }

  lemma FromHalves(x: nat, y: nat, halfX: nat, halfY: nat, z: nat)
    requires halfX == x / 2 && halfY == y / 2
    requires z / 2 == Plus(halfX, halfY) && z % 2 == if x % 2 == y % 2 then 0 else 1
    ensures z == Plus(x, y)
  {
    HalvesOfPlus(x, y);
  }

  lemma GeneratorComesBack(n: nat)
    requires n < 256
    ensures Plus(Times(1, GENERATOR), Plus(n, 0x31)) == 256 + n
  {
    TimesOne();
    PlusCommutes(n, 0x31);
    PlusAssociates(GENERATOR, 0x31, n);
    GeneratorWithoutItsTop();
    EighthPower(1);
    PlusBelow(1, n, 8);
  }

  lemma TimesOne()
    ensures Times(1, GENERATOR) == GENERATOR
  {
    TimesOfHalves(1, GENERATOR);
    PlusCommutes(GENERATOR, 0);
  }

  lemma GeneratorWithoutItsTop()
    ensures Plus(GENERATOR, 0x31) == 256
  {
    assert Plus(9, 1) == 8 && Plus(19, 3) == 16;
  }

  function Top(c: bv8): nat {
    if c & 0x80 != 0 then 1 else 0
  }

  /** The code's step on one bit: x times the register, less the generator if that has x^8. */
  lemma BitStepDivides(c: bv8)
    ensures 2 * c as nat == Plus(Times(Top(c), GENERATOR), BitStep(c) as nat)
  {
    Doubled(c);
    if c & 0x80 != 0 {
      StepSubtracts(c);
      GeneratorComesBack((c << 1) as nat);
    }
  }

  lemma StepSubtracts(c: bv8)
    requires c & 0x80 != 0
    ensures BitStep(c) as nat == Plus((c << 1) as nat, 0x31)
  {
    XorIsPlus(c << 1, 0x31);
  }

  // --------------------------------------------------------------- the remainder

  /** What is left of p divided by the generator can be divided further. */
  lemma DivideFurther(p: nat, q: nat, r: nat, k: nat, t: nat, s: nat)
    requires p == Plus(Times(q, GENERATOR), r) && TimesPower(r, k) == Plus(Times(t, GENERATOR), s)
    ensures TimesPower(p, k) == Plus(Times(Plus(TimesPower(q, k), t), GENERATOR), s)
  {
    PowerDistributes(Times(q, GENERATOR), r, k);
    TimesOfPower(q, k, GENERATOR);
    TimesDistributes(TimesPower(q, k), t, GENERATOR);
    PlusAssociates(Times(TimesPower(q, k), GENERATOR), Times(t, GENERATOR), s);
  }

  lemma {:induction false} ShiftsDivide(c: bv8, n: nat) returns (q: nat)
    ensures TimesPower(c as nat, n) == Plus(Times(q, GENERATOR), SHT30.Shifts(c, n) as nat)
  {
    q := 0;
    if n > 0 {
      var d := SHT30.Shifts(c, n - 1);
      q := ShiftsDivide(c, n - 1);
      q := OneShiftMore(TimesPower(c as nat, n - 1), q, d);
    }
  }

  lemma OneShiftMore(p: nat, q: nat, c: bv8) returns (q': nat)
    requires p == Plus(Times(q, GENERATOR), c as nat)
    ensures 2 * p == Plus(Times(q', GENERATOR), BitStep(c) as nat)
  {
    BitStepDivides(c);
    DivideFurther(p, q, c as nat, 1, Top(c), BitStep(c) as nat);
    q' := Plus(TimesPower(q, 1), Top(c));
  }

  /** What is in the register before a message, and the message, times x^8 */
  function Dividend(c: nat, n: nat, m: nat): nat {
    Plus(TimesPower(m, 8), TimesPower(c, 8 * n))
  }

  lemma ByteMoved(m: nat, b: nat)
    requires b < 256
    ensures 256 * m + b == Plus(TimesPower(m, 8), b)
  {
    EighthPower(m);
    EighthPower(1);
    PlusBelow(m, b, 8);
  }

  lemma Rearrange(m: nat, b: nat, c: nat, e: nat, k: nat)
    ensures
      Plus(TimesPower(Plus(m, b), k), TimesPower(c, e + k)) == TimesPower(Plus(Plus(m, TimesPower(c, e)), b), k)
  {
    var d := TimesPower(c, e);
    PowersAdd(c, e, k);
    PowerDistributes(Plus(m, b), d, k);
    PlusAssociates(m, b, d);
    PlusCommutes(b, d);
    PlusAssociates(m, d, b);
  }

  lemma NextByte(c: nat, n: nat, m: nat, b: nat)
    requires b < 256
    ensures Dividend(c, n + 1, 256 * m + b) == TimesPower(Plus(Dividend(c, n, m), b), 8)
  {
    ByteMoved(m, b);
    Rearrange(TimesPower(m, 8), b, c, 8 * n, 8);
  }

  lemma OneByteMore(p: nat, q: nat, r: bv8, b: bv8) returns (q': nat)
    requires p == Plus(Times(q, GENERATOR), r as nat)
    ensures TimesPower(Plus(p, b as nat), 8) == Plus(Times(q', GENERATOR), SHT30.Shifts(r ^ b, 8) as nat)
  {
    var t := ShiftsDivide(r ^ b, 8);
    XorIsPlus(r, b);
    PlusAssociates(Times(q, GENERATOR), r as nat, b as nat);
    DivideFurther(Plus(p, b as nat), q, (r ^ b) as nat, 8, t, SHT30.Shifts(r ^ b, 8) as nat);
    q' := Plus(TimesPower(q, 8), t);
  }

  lemma NothingFed(c: bv8)
    ensures Dividend(c as nat, 0, 0) == Plus(Times(0, GENERATOR), c as nat)
  {
    PowerOfZero(8);
  }

  /** What the register holds after a message is the remainder of the message and of what it held before. */
  lemma {:induction false} FeedDivides(c: bv8, data: seq<bv8>) returns (q: nat)
    ensures Dividend(c as nat, |data|, OfMessage(data)) == Plus(Times(q, GENERATOR), SHT30.Feed(c, data) as nat)
  {
    if data == [] {
      q := 0;
      NothingFed(c);
    } else {
      var rest, b := data[..|data| - 1], data[|data| - 1];
      q := FeedDivides(c, rest);
      var p := Dividend(c as nat, |rest|, OfMessage(rest));
      NextByte(c as nat, |rest|, OfMessage(rest), b as nat);
      q := OneByteMore(p, q, SHT30.Feed(c, rest), b);
    }
  }

  // -------------------------------------------------------------- there is only one

  lemma {:induction false} PlusIsHigh(a: nat, b: nat, k: nat)
    requires a < TimesPower(1, k) <= b
    ensures Plus(a, b) >= TimesPower(1, k)
  {
    PlusCommutes(a, b);
    if k > 0 && a > 0 {
      PlusIsHigh(a / 2, b / 2, k - 1);
      HalvesOfPlus(a, b);
    }
  }

  lemma {:induction false} PlusIsLow(a: nat, b: nat, k: nat)
    requires a < TimesPower(1, k) && b < TimesPower(1, k)
    ensures Plus(a, b) < TimesPower(1, k)
  {
    if k > 0 && a > 0 && b > 0 {
      PlusIsLow(a / 2, b / 2, k - 1);
    }
  }

  /** No multiple of the generator has a degree below 8, except 0. */
  lemma {:induction false} MultiplesAreHigh(q: nat)
    requires q > 0
    ensures Times(q, GENERATOR) >= 256
  {
    if q == 1 {
      TimesOne();
    } else {
      MultiplesAreHigh(q / 2);
      EighthPower(1);
      PlusIsHigh(if q % 2 == 1 then GENERATOR else 0, 2 * Times(q / 2, GENERATOR), 9);
    }
  }

  lemma SumIsZero(a: nat, b: nat)
    requires Plus(a, b) == 0
    ensures a == b
  {
    PlusAssociates(a, b, b);
    PlusCancels(b);
    PlusCommutes(a, 0);
  }

  lemma RemainderIsUnique(q: nat, a: nat, t: nat, b: nat)
    requires a < 256 && b < 256 && Plus(Times(q, GENERATOR), a) == Plus(Times(t, GENERATOR), b)
    ensures a == b
  {
    var m, n := Times(q, GENERATOR), Times(t, GENERATOR);
    PlusCancels(Plus(m, a));
    PlusRegroups(m, a, n, b);
    SumIsZero(Plus(m, n), Plus(a, b));
    TimesDistributes(q, t, GENERATOR);
    EighthPower(1);
    PlusIsLow(a, b, 8);
    if Plus(q, t) > 0 {
      MultiplesAreHigh(Plus(q, t));
    }
    SumIsZero(a, b);
  }

  // -------------------------------------------------------------------- the theorem

  /** data' is data with its first byte xored with c. */
  predicate DiffersInFirst(data: seq<bv8>, data': seq<bv8>, c: bv8) {
    |data'| == |data| > 0 && data'[0] == data[0] ^ c && data'[1..] == data[1..]
  }

  lemma RestDiffers(data: seq<bv8>, data': seq<bv8>, c: bv8, n: nat)
    requires DiffersInFirst(data, data', c) && n == |data| > 1
    ensures DiffersInFirst(data[..n - 1], data'[..n - 1], c) && data[n - 1] == data'[n - 1]
  {
    assert data'[..n - 1][1..] == data'[1..][..n - 2] && data[..n - 1][1..] == data[1..][..n - 2];
    assert data[n - 1] == data[1..][n - 2] && data'[n - 1] == data'[1..][n - 2];
  }

  lemma FirstByteOfMore(data: seq<bv8>, data': seq<bv8>, c: nat, n: nat)
    requires n + 1 == |data| == |data'| && data[n] == data'[n]
    requires TimesPower(OfMessage(data'[..n]), 8) == Dividend(c, n, OfMessage(data[..n]))
    ensures TimesPower(OfMessage(data'), 8) == Dividend(c, n + 1, OfMessage(data))
  {
    SameByteMore(OfMessage(data'[..n]), c, n, OfMessage(data[..n]), data[n] as nat);
  }

  lemma {:induction false} FirstByte(data: seq<bv8>, data': seq<bv8>, c: bv8, n: nat)
    requires DiffersInFirst(data, data', c) && n == |data|
    ensures TimesPower(OfMessage(data'), 8) == Dividend(c as nat, n, OfMessage(data))
  {
    if n == 1 {
      OneByte(data[0], c);
      assert data == [data[0]] && data' == [data'[0]];
    } else {
      RestDiffers(data, data', c, n);
      FirstByte(data[..n - 1], data'[..n - 1], c, n - 1);
      FirstByteOfMore(data, data', c as nat, n - 1);
    }
  }

  lemma OfMessageMore(rest: seq<bv8>, b: bv8)
    ensures OfMessage(rest + [b]) == 256 * OfMessage(rest) + b as nat
  {
    assert (rest + [b])[..|rest|] == rest;
  }

  lemma OneByte(b: bv8, c: bv8)
    ensures TimesPower(OfMessage([b ^ c]), 8) == Dividend(c as nat, 1, OfMessage([b]))
  {
    OfMessageMore([], b);
    OfMessageMore([], b ^ c);
    assert [] + [b] == [b] && [] + [b ^ c] == [b ^ c];
    XorIsPlus(b, c);
    PowerDistributes(b as nat, c as nat, 8);
  }

  lemma SameByteMore(m': nat, c: nat, n: nat, m: nat, b: nat)
    requires b < 256 && TimesPower(m', 8) == Dividend(c, n, m)
    ensures TimesPower(256 * m' + b, 8) == Dividend(c, n + 1, 256 * m + b)
  {
    ByteMoved(m', b);
    NextByte(c, n, m, b);
  }

  /** r is the remainder of p divided by the generator. */
  ghost predicate Remains(p: nat, r: nat) {
    r < 256 && exists q: nat :: p == Plus(Times(q, GENERATOR), r)
  }

  /** The checksum of a message is the remainder of x^8 times the message, its first byte complemented, divided by
      x^8 + x^5 + x^4 + 1, and nothing else is; that of no message is 0xFF. */
  lemma CrcIsTheRemainder(data: seq<bv8>, r: nat)
    ensures data == [] ==> Crc(data) == 0xFF
    ensures data != [] ==> (r == Crc(data) as nat <==> Remains(TimesPower(OfMessage(data[0 := data[0] ^ 0xFF]), 8), r))
  {
    if data != [] {
      var p := TimesPower(OfMessage(data[0 := data[0] ^ 0xFF]), 8);
      var q := FeedDivides(0xFF, data);
      FirstByte(data, data[0 := data[0] ^ 0xFF], 0xFF, |data|);
      assert p == Plus(Times(q, GENERATOR), Crc(data) as nat);
      if Remains(p, r) {
        var t: nat :| p == Plus(Times(t, GENERATOR), r);
        RemainderIsUnique(q, Crc(data) as nat, t, r);
      }
    }
  }

  /** The example in the data sheet of the sensor */
  lemma ExampleOfTheDataSheet()
    ensures Crc([0xBE, 0xEF]) == 0x92
  {
    var data: seq<bv8> := [0xBE, 0xEF];
    assert data[..1] == [0xBE];
    FeedOne(0xFF, 0xBE);
    ShiftsAreSteps(SHT30.Feed(0xFF, data[..1]) ^ 0xEF);
  }

  lemma ShiftsAreSteps(c: bv8)
    ensures SHT30.Shifts(c, 8) == ByteStep(c, 0)
  {
    FeedOne(c, 0);
    var data: seq<bv8> := [0];
    assert data[..0] == [];
    assert c ^ 0 == c;
  }
}
