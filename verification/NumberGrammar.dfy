/** What numerals stand for, said without the parser, and that the parser reads them as that, rounding apart
    (packages/cjson/cJSON.c:307-381).  They are those of RFC 8259 section 6, but the digits may start with 0, or be
    missing on one side of the point. */
module NumberGrammar {
  import opened Json
  import opened JsonString
  import opened JsonParse
  import opened JsonRoundTrip

  datatype Power = NoPower | Power(marker: char, sign: string, digits: string)

  datatype Numeral = Numeral(sign: string, whole: string, point: string, fraction: string, power: Power)

  predicate AllDigits(s: string) {
    forall i :: 0 <= i < |s| ==> IsDigit(s[i])
  }

  predicate ProperPower(p: Power) {
    p.Power? ==>
      && (p.marker == 'e' || p.marker == 'E')
      && (p.sign == "" || p.sign == "+" || p.sign == "-")
      && p.digits != "" && AllDigits(p.digits)
  }

  /** It begins with a minus or a digit. */
  predicate Proper(n: Numeral) {
    && (n.sign == "-" || (n.sign == "" && n.whole != ""))
    && AllDigits(n.whole) && AllDigits(n.fraction) && n.whole + n.fraction != ""
    && (n.point == "." || (n.point == "" && n.fraction == ""))
    && ProperPower(n.power)
  }

  function SpellPower(p: Power): string {
    if p.NoPower? then "" else [p.marker] + p.sign + p.digits
  }

  function Spell(n: Numeral): string {
    n.sign + n.whole + n.point + n.fraction + SpellPower(n.power)
  }

  function Exponent10(p: Power): int
    requires ProperPower(p)
  {
    if p.NoPower? then 0 else if p.sign == "-" then 0 - ValueOf(p.digits) else ValueOf(p.digits)
  }

  /** x with the point moved e places to the right, or to the left */
  function Moved(x: real, e: int): real
    decreases if e < 0 then -e else e
  {
    if e == 0 then x else if e > 0 then Moved(10.0 * x, e - 1) else Moved(x / 10.0, e + 1)
  }

  function Denoted(n: Numeral): real
    requires Proper(n)
  {
    var magnitude := Moved(ValueOf(n.whole + n.fraction) as real, Exponent10(n.power) - |n.fraction|);
    if n.sign == "-" then -magnitude else magnitude
  }

  // ------------------------------------------------------------------ arithmetic

  lemma {:induction false} MovedTens(x: real, e: int)
    ensures Moved(10.0 * x, e) == 10.0 * Moved(x, e) == Moved(x, e + 1)
    decreases if e < 0 then -e else e
  {
    if e > 0 {
      MovedTens(10.0 * x, e - 1);
    } else if e < 0 {
      MovedTens(x / 10.0, e + 1);
      assert 10.0 * x / 10.0 == x && 10.0 * (x / 10.0) == x;
    }
  }

  lemma MovedTenths(x: real, e: int)
    ensures Moved(x / 10.0, e) == Moved(x, e) / 10.0 == Moved(x, e - 1)
  {
    MovedTens(x / 10.0, e);
    MovedTens(x, e - 1);
    assert 10.0 * (x / 10.0) == x;
  }

  lemma {:induction false} MovedTwice(x: real, a: int, b: int)
    ensures Moved(Moved(x, a), b) == Moved(x, a + b)
    decreases if b < 0 then -b else b
  {
    if b > 0 {
      MovedTens(x, a);
      MovedTwice(x, a + 1, b - 1);
    } else if b < 0 {
      MovedTenths(x, a);
      MovedTwice(x, a - 1, b + 1);
    }
  }

  lemma {:induction false} MovedNegates(x: real, e: int)
    ensures Moved(-x, e) == -Moved(x, e)
    decreases if e < 0 then -e else e
  {
    if e > 0 {
      MovedNegates(10.0 * x, e - 1);
    } else if e < 0 {
      MovedNegates(x / 10.0, e + 1);
    }
  }

  lemma {:induction false} PowersMove(x: real, k: nat)
    ensures Power10(k) > 0
    ensures x * Power10(k) as real == Moved(x, k) && x / Power10(k) as real == Moved(x, 0 - k)
    decreases k
  {
    if k > 0 {
      PowersMove(10.0 * x, k - 1);
      PowersMove(x / 10.0, k - 1);
      TenMore(x, Power10(k - 1));
    }
  }

  lemma TenMore(x: real, p: nat)
    requires p > 0
    ensures x * (10 * p) as real == (10.0 * x) * p as real
    ensures x / (10 * p) as real == (x / 10.0) / p as real
  {
  }

  lemma ScaleMoves(x: real, e: int)
    ensures Scale(x, e) == Moved(x, e)
  {
    PowersMove(x, if e < 0 then -e else e);
  }

  /** What strtod computes of a sign, digits, how many of them are behind the point, and an exponent */
  lemma ValueIsMoved(minus: bool, digits: string, f: nat, e: int)
    requires AllDigits(digits)
    ensures
      var moved := Moved(ValueOf(digits) as real, e - f);
      DecimalValue(minus, digits, f, e) == if minus then -moved else moved
  {
    var m := ValueOf(digits) as real;
    PowersMove(m, f);
    var magnitude := m / Power10(f) as real;
    ScaleMoves(if minus then -magnitude else magnitude, e);
    MovedNegates(magnitude, e);
    MovedTwice(m, 0 - f, e);
  }

  // ------------------------------------------------------------ what is accepted

  function PowerAt(s: string, i: nat): (p: Power)
    requires i <= |s|
  {
    if Exponent(s, i).1 == 0 then NoPower
    else
      var first := i + 1 + SignAt(s, i + 1);
      Power(s[i], s[i + 1..first], s[first..i + Exponent(s, i).1])
  }

  lemma PowerIsThere(s: string, i: nat)
    requires i <= |s|
    ensures ProperPower(PowerAt(s, i)) && Exponent10(PowerAt(s, i)) == Exponent(s, i).0
    ensures SpellPower(PowerAt(s, i)) == s[i..i + Exponent(s, i).1]
  {
    if Exponent(s, i).1 != 0 {
      var first := i + 1 + SignAt(s, i + 1);
      var p, end := PowerAt(s, i), i + Exponent(s, i).1;
      assert s[i..end] == [s[i]] + s[i + 1..first] + s[first..end];
    }
  }

  /** Where strtod finds the parts of a numeral at the front of s: the digits from first to point, dot characters, and
      the digits up to end */
  ghost predicate Positions(s: string, first: nat, point: nat, dot: nat, end: nat) {
    && first == SignAt(s, 0) && first <= |s| && point == first + DigitRun(s, first)
    && dot == (if point < |s| && s[point] == '.' then 1 else 0)
    && end == point + dot + (if dot == 1 then DigitRun(s, point + 1) else 0)
    && point - first + end - (point + dot) > 0
  }

  ghost predicate Parted(s: string, first: nat, point: nat, dot: nat, end: nat) {
    && first == SignAt(s, 0) <= point <= |s| && dot <= 1 && point + dot <= end <= |s|
    && AllDigits(s[first..point]) && AllDigits(s[point + dot..end])
    && (dot == 1 ==> s[point] == '.') && (dot == 0 ==> end == point)
    && point - first + end - (point + dot) > 0
  }

  lemma PartsOf(s: string) returns (first: nat, point: nat, dot: nat, end: nat)
    requires Strtod(s).length > 0
    ensures Positions(s, first, point, dot, end)
  {
    first := SignAt(s, 0);
    point := first + DigitRun(s, first);
    dot := if point < |s| && s[point] == '.' then 1 else 0;
    end := point + dot + if dot == 1 then DigitRun(s, point + 1) else 0;
  }

  lemma PartsAreThere(s: string, first: nat, point: nat, dot: nat, end: nat)
    requires Positions(s, first, point, dot, end)
    ensures Parted(s, first, point, dot, end)
  {
    RunIsDigits(s, first);
    if dot == 1 {
      RunIsDigits(s, point + 1);
    }
  }

  lemma RunIsDigits(s: string, i: nat)
    requires i <= |s|
    ensures AllDigits(s[i..i + DigitRun(s, i)])
  {
  }

  lemma DigitsTogether(a: string, b: string)
    requires AllDigits(a) && AllDigits(b)
    ensures AllDigits(a + b)
  {
  }

  lemma PartsMakeTheValue(s: string, first: nat, point: nat, dot: nat, end: nat)
    requires Positions(s, first, point, dot, end) && Parted(s, first, point, dot, end)
    requires AllDigits(s[first..point] + s[point + dot..end])
    ensures
      var (digits, e) := (s[first..point] + s[point + dot..end], Exponent(s, end));
      Strtod(s) == Scan(DecimalValue(s[0] == '-', digits, end - point - dot, e.0), end + e.1)
  {
  }

  function NumeralFrom(s: string, first: nat, point: nat, dot: nat, end: nat): Numeral
    requires first <= point <= point + dot <= end <= |s|
  {
    Numeral(s[..first], s[first..point], s[point..point + dot], s[point + dot..end], PowerAt(s, end))
  }

  lemma NumeralIsProper(s: string, first: nat, point: nat, dot: nat, end: nat)
    requires Parted(s, first, point, dot, end) && (s[0] == '-' || IsDigit(s[0]))
    ensures Proper(NumeralFrom(s, first, point, dot, end))
  {
    PowerIsThere(s, end);
    assert first == 1 ==> s[..first] == "-";
    assert dot == 1 ==> s[point..point + dot] == ".";
    assert first == 0 && point == 0 ==> dot == 1;
  }

  lemma NumeralIsSpelled(s: string, first: nat, point: nat, dot: nat, end: nat, length: nat)
    requires first <= point <= point + dot <= end <= |s| && length == end + Exponent(s, end).1
    ensures Spell(NumeralFrom(s, first, point, dot, end)) == s[..length]
  {
    PowerIsThere(s, end);
    assert s[..length] == s[..first] + s[first..point] + s[point..point + dot] + s[point + dot..end] + s[end..length];
  }

  lemma NumeralIsItsValue(s: string, first: nat, point: nat, dot: nat, end: nat)
    requires Parted(s, first, point, dot, end) && Proper(NumeralFrom(s, first, point, dot, end))
    ensures AllDigits(s[first..point] + s[point + dot..end])
    ensures
      Denoted(NumeralFrom(s, first, point, dot, end)) ==
      DecimalValue(s[0] == '-', s[first..point] + s[point + dot..end], end - point - dot, Exponent(s, end).0)
  {
    var digits := s[first..point] + s[point + dot..end];
    DigitsTogether(s[first..point], s[point + dot..end]);
    PowerIsThere(s, end);
    assert s[..first] == "-" <==> s[0] == '-';
    ValueIsMoved(s[0] == '-', digits, end - point - dot, Exponent(s, end).0);
  }

  /** What strtod accepts is a numeral, which stands for what it returns. */
  lemma StrtodIsRight(s: string) returns (n: Numeral)
    requires Strtod(s).length > 0 && (s[0] == '-' || IsDigit(s[0]))
    ensures Proper(n) && Spell(n) == s[..Strtod(s).length] && Denoted(n) == Strtod(s).value
  {
    var first, point, dot, end := PartsOf(s);
    PartsAreThere(s, first, point, dot, end);
    n := NumeralFrom(s, first, point, dot, end);
    NumeralIsProper(s, first, point, dot, end);
    NumeralIsItsValue(s, first, point, dot, end);
    PartsMakeTheValue(s, first, point, dot, end);
    NumeralIsSpelled(s, first, point, dot, end, Strtod(s).length);
  }

  /** t is a numeral that stands for d. */
  ghost predicate NumberText(t: string, d: real) {
    |t| <= NUMBER_ROOM && exists n :: Proper(n) && Spell(n) == t && Denoted(n) == d
  }

  /** An accepted number is a numeral that stands for what was read. */
  lemma NumberIsDenoted(s: string) returns (t: string)
    requires s != "" && (s[0] == '-' || IsDigit(s[0])) && ParseNumber(s).Ok?
    ensures s == t + ParseNumber(s).rest && t != ""
    ensures ParseNumber(s).value.Number? && NumberText(t, ParseNumber(s).value.value)
  {
    var w := NumberChars(s, NUMBER_ROOM);
    var n := Strtod(w).length;
    t := s[..n];
    assert w[0] == s[0] && w[..n] == t;
    var numeral := StrtodIsRight(w);
  }

  // ---------------------------------------------------------------- what is read

  lemma {:induction false} DigitRunIs(s: string, i: nat, n: nat)
    requires i + n <= |s| && AllDigits(s[i..i + n]) && (i + n < |s| ==> !IsDigit(s[i + n]))
    ensures DigitRun(s, i) == n
    decreases n
  {
    if n > 0 {
      assert s[i] == s[i..i + n][0];
      assert s[i + 1..i + n] == s[i..i + n][1..];
      DigitRunIs(s, i + 1, n - 1);
    }
  }

  lemma DigitsInside(s: string, a: string, w: string, b: string)
    requires s == a + w + b && AllDigits(w) && (b != "" ==> !IsDigit(b[0]))
    ensures DigitRun(s, |a|) == |w| && s[|a|..|a| + |w|] == w
  {
    assert s[|a|..|a| + |w|] == w;
    assert b != "" ==> s[|a| + |w|] == b[0];
    DigitRunIs(s, |a|, |w|);
  }

  lemma SignInside(s: string, a: string, sign: string, b: string)
    requires s == a + sign + b && (sign == "" || sign == "+" || sign == "-") && b != "" && IsDigit(b[0])
    ensures SignAt(s, |a|) == |sign| && |a| < |s| && (s[|a|] == '-' <==> sign == "-")
  {
    assert s[|a|] == if sign == "" then b[0] else sign[0];
  }

  lemma ExponentIs(s: string, i: nat, first: nat, n: nat, digits: string)
    requires i < |s| && (s[i] == 'e' || s[i] == 'E') && first == i + 1 + SignAt(s, i + 1)
    requires n == DigitRun(s, first) > 0 && s[first..first + n] == digits && AllDigits(digits)
    ensures i + 1 < |s| && Exponent(s, i) == (if s[i + 1] == '-' then 0 - ValueOf(digits) else ValueOf(digits), first + n - i)
  {
  }

  lemma PowerIsRead(s: string, a: string, p: Power)
    requires ProperPower(p) && s == a + SpellPower(p)
    ensures Exponent(s, |a|) == (Exponent10(p), |s| - |a|)
  {
    if p.Power? {
      MarkedPowerIsRead(s, a + [p.marker], p);
    }
  }

  lemma DigitsAtTheEnd(s: string, a: string, w: string)
    requires s == a + w && AllDigits(w)
    ensures DigitRun(s, |a|) == |w| && s[|a|..|a| + |w|] == w
  {
    assert s == a + w + "";
    DigitsInside(s, a, w, "");
  }

  lemma MarkedPowerIsRead(s: string, b: string, p: Power)
    requires p.Power? && ProperPower(p) && b != "" && b[|b| - 1] == p.marker && s == b + p.sign + p.digits
    ensures Exponent(s, |b| - 1) == (Exponent10(p), |s| - (|b| - 1))
  {
    var i, first := |b| - 1, |b| + |p.sign|;
    assert s[i] == p.marker && first == |b + p.sign|;
    SignInside(s, b, p.sign, p.digits);
    DigitsAtTheEnd(s, b + p.sign, p.digits);
    ExponentIs(s, i, first, |p.digits|, p.digits);
  }

  lemma PowerBegins(p: Power)
    requires ProperPower(p) && SpellPower(p) != ""
    ensures SpellPower(p)[0] == 'e' || SpellPower(p)[0] == 'E'
  {
  }

  lemma SignIsRead(n: Numeral, s: string)
    requires Proper(n) && s == Spell(n)
    ensures SignAt(s, 0) == |n.sign| && s != "" && (s[0] == '-' <==> n.sign == "-")
    ensures s[0] == '-' || IsDigit(s[0])
  {
    if n.sign == "" {
      assert s[0] == n.whole[0];
    } else {
      assert s[0] == n.sign[0];
    }
  }

  lemma RestBegins(n: Numeral, rest: string)
    requires Proper(n) && rest == n.point + n.fraction + SpellPower(n.power)
    ensures rest != "" ==> !IsDigit(rest[0])
    ensures rest != "" && rest[0] == '.' <==> n.point == "."
  {
    if n.point == "." {
      assert rest[0] == '.';
    } else {
      assert rest == SpellPower(n.power);
    }
  }

  lemma WholeIsRead(n: Numeral, s: string)
    requires Proper(n) && s == Spell(n)
    ensures
      var first, point := |n.sign|, |n.sign| + |n.whole|;
      && DigitRun(s, first) == |n.whole| && s[first..point] == n.whole && point <= |s|
      && (point < |s| && s[point] == '.' <==> n.point == ".")
  {
    var rest := n.point + n.fraction + SpellPower(n.power);
    assert s == n.sign + n.whole + rest;
    RestBegins(n, rest);
    DigitsInside(s, n.sign, n.whole, rest);
    assert rest != "" ==> s[|n.sign| + |n.whole|] == rest[0];
  }

  lemma FractionIsRead(n: Numeral, s: string)
    requires Proper(n) && s == Spell(n)
    ensures
      var start := |n.sign| + |n.whole| + |n.point|;
      DigitRun(s, start) == |n.fraction| && s[start..start + |n.fraction|] == n.fraction
  {
    var a := n.sign + n.whole + n.point;
    assert s == a + n.fraction + SpellPower(n.power);
    if SpellPower(n.power) != "" {
      PowerBegins(n.power);
    }
    DigitsInside(s, a, n.fraction, SpellPower(n.power));
  }

  lemma NumeralIsFound(n: Numeral, s: string, point: nat, end: nat)
    requires Proper(n) && s == Spell(n)
    requires point == |n.sign| + |n.whole| && end == point + |n.point| + |n.fraction|
    ensures Positions(s, |n.sign|, point, |n.point|, end) && Parted(s, |n.sign|, point, |n.point|, end)
    ensures s[|n.sign|..point] == n.whole && s[point + |n.point|..end] == n.fraction && (s[0] == '-' <==> n.sign == "-")
  {
    SignIsRead(n, s);
    WholeIsRead(n, s);
    FractionIsRead(n, s);
    PartsAreThere(s, |n.sign|, point, |n.point|, end);
  }

  lemma PowerOfNumeral(n: Numeral, s: string, end: nat)
    requires Proper(n) && s == Spell(n) && end == |n.sign| + |n.whole| + |n.point| + |n.fraction|
    ensures end <= |s| && Exponent(s, end) == (Exponent10(n.power), |s| - end)
  {
    PowerIsRead(s, n.sign + n.whole + n.point + n.fraction, n.power);
  }

  lemma DenotedIsDecimal(n: Numeral)
    requires Proper(n)
    ensures AllDigits(n.whole + n.fraction)
    ensures Denoted(n) == DecimalValue(n.sign == "-", n.whole + n.fraction, |n.fraction|, Exponent10(n.power))
  {
    DigitsTogether(n.whole, n.fraction);
    ValueIsMoved(n.sign == "-", n.whole + n.fraction, |n.fraction|, Exponent10(n.power));
  }

  lemma StrtodReadsNumeral(n: Numeral, s: string)
    requires Proper(n) && s == Spell(n)
    ensures Strtod(s) == Scan(Denoted(n), |s|)
  {
    var first, point, dot := |n.sign|, |n.sign| + |n.whole|, |n.point|;
    var end := point + dot + |n.fraction|;
    NumeralIsFound(n, s, point, end);
    PowerOfNumeral(n, s, end);
    DenotedIsDecimal(n);
    PartsMakeTheValue(s, first, point, dot, end);
  }

  lemma NumeralIsNumberChars(n: Numeral)
    requires Proper(n)
    ensures forall i :: 0 <= i < |Spell(n)| ==> IsNumberChar(Spell(n)[i])
  {
    assert forall i :: 0 <= i < |SpellPower(n.power)| ==> IsNumberChar(SpellPower(n.power)[i]);
  }

  /** A numeral that nothing continues is read as what it stands for. */
  lemma NumberTextIsRead(t: string, d: real, s: string)
    requires NumberText(t, d) && t <= s && Stops(s[|t|..])
    ensures ParseNumber(s) == Ok(Number(d), s[|t|..]) && t != "" && (t[0] == '-' || IsDigit(t[0]))
  {
    var n :| Proper(n) && Spell(n) == t && Denoted(n) == d;
    NumeralIsNumberChars(n);
    NumberCharsAreAll(t, s, NUMBER_ROOM);
    SignIsRead(n, t);
    StrtodReadsNumeral(n, t);
    NumberIsParsed(s, t, d);
  }
}
