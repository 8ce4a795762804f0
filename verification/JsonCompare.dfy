/** cJSON_Compare, case sensitive or not (packages/cjson/cJSON.c:132-155, 556-561, 1909-1939, 3030-3153), on
    trees; and what it decides. */
module JsonCompare {
  import opened Options
  import opened Json

  // --------------------------------------------------------------------- the code

  const DBL_EPSILON: real := 1.0 / 4503599627370496.0

  function Abs(a: real): real {
    if a < 0.0 then -a else a
  }

  predicate CompareDouble(a: real, b: real) {
    Abs(a - b) <= (if Abs(a) > Abs(b) then Abs(a) else Abs(b)) * DBL_EPSILON
  }

  /** tolower on every character */
  function Lower(s: string): (r: string)
    ensures |r| == |s|
  {
    seq(|s|, i requires 0 <= i < |s| => ToLower(s[i]))
  }

  function ToLower(c: char): (r: char)
    ensures r == NUL <==> c == NUL
  {
    if 'A' <= c <= 'Z' then c - 'A' + 'a' else c
  }

  predicate IsLetter(c: char) {
    'A' <= c <= 'Z' || 'a' <= c <= 'z'
  }

  /** The same characters, but that letters may differ in case */
  predicate SameButForCase(a: string, b: string) {
    && |a| == |b|
    && forall i :: 0 <= i < |a| ==>
         a[i] == b[i] || (IsLetter(a[i]) && IsLetter(b[i]) && a[i] as nat % 32 == b[i] as nat % 32)
  }

  lemma LowerMeansSame(a: string, b: string)
    ensures Lower(a) == Lower(b) <==> SameButForCase(a, b)
  {
    if Lower(a) == Lower(b) {
      forall i | 0 <= i < |a| ensures a[i] == b[i] || (IsLetter(a[i]) && IsLetter(b[i]) && a[i] as nat % 32 == b[i] as nat % 32) {
        assert Lower(a)[i] == Lower(b)[i];
        LowerLetters(a[i], b[i]);
      }
    } else if SameButForCase(a, b) {
      forall i | 0 <= i < |a| ensures Lower(a)[i] == Lower(b)[i] {
        LowerLetters(a[i], b[i]);
      }
    }
  }

  lemma LowerLetters(c: char, d: char)
    ensures
      ToLower(c) == ToLower(d) <==>
      c == d || (IsLetter(c) && IsLetter(d) && c as nat % 32 == d as nat % 32)
  {
  }

  /** Two names are one, by case or not. */
  predicate SameName(a: string, b: string, cased: bool) {
    if cased then a == b else SameButForCase(a, b)
  }

  /** What of a name counts. */
  function Key(name: string, cased: bool): string {
    if cased then name else Lower(name)
  }

  /** get_object_item: the first member of that name */
  function Get(members: Members, name: string, cased: bool): (r: Option<Json>)
    ensures r.Some? ==> Size(r.value) < SizeOfMembers(members)
  {
    if members.NoMembers? then None
    else if Key(members.key, cased) == Key(name, cased) then Some(members.value)
    else Get(members.rest, name, cased)
  }

  function Count(members: Members): nat {
    if members.NoMembers? then 0 else 1 + Count(members.rest)
  }

  function MemberAt(members: Members, i: nat): (m: Members)
    requires i < Count(members)
    ensures m.Member?
  {
    if i == 0 then members else MemberAt(members.rest, i - 1)
  }

  /** It is the first member of that name, or there is none: said by their positions. */
  lemma {:induction false} GetIsTheFirst(members: Members, name: string, cased: bool) returns (i: nat)
    ensures i <= Count(members)
    ensures forall k :: 0 <= k < i ==> !SameName(MemberAt(members, k).key, name, cased)
    ensures i < Count(members) ==>
      SameName(MemberAt(members, i).key, name, cased) && Get(members, name, cased) == Some(MemberAt(members, i).value)
    ensures i == Count(members) ==> Get(members, name, cased) == None
  {
    i := 0;
    if members.Member? {
      LowerMeansSame(members.key, name);
      if Key(members.key, cased) != Key(name, cased) {
        var n := GetIsTheFirst(members.rest, name, cased);
        i := n + 1;
        forall k | 0 <= k < i ensures !SameName(MemberAt(members, k).key, name, cased) {
          assert k > 0 ==> MemberAt(members, k) == MemberAt(members.rest, k - 1);
        }
      }
    }
  }

  function Size(j: Json): nat {
    match j
    case Array(elems) => 1 + SizeOfElems(elems)
    case Object(members) => 1 + SizeOfMembers(members)
    case _ => 0
  }

  function SizeOfElems(elems: Elems): nat {
    if elems.NoElems? then 0 else 1 + Size(elems.head) + SizeOfElems(elems.tail)
  }

  function SizeOfMembers(members: Members): nat {
    if members.NoMembers? then 0 else 1 + Size(members.value) + SizeOfMembers(members.rest)
  }

  predicate Compare(a: Json, b: Json, cased: bool)
    decreases Size(a) + Size(b), 0
  {
    match (a, b)
    case (Null, Null) => true
    case (False, False) => true
    case (True, True) => true
    case (Number(x), Number(y)) => CompareDouble(x, y)
    case (String(x), String(y)) => x == y
    case (Array(x), Array(y)) => CompareElems(x, y, cased)
    case (Object(x), Object(y)) => AllIn(x, y, cased) && AllIn(y, x, cased)
    case _ => false
  }

  predicate CompareElems(a: Elems, b: Elems, cased: bool)
    decreases SizeOfElems(a) + SizeOfElems(b), 1
  {
    if a.NoElems? || b.NoElems? then a == b else Compare(a.head, b.head, cased) && CompareElems(a.tail, b.tail, cased)
  }

  /** One of the two passes over an object: every member of a has an equal in b. */
  predicate AllIn(a: Members, b: Members, cased: bool)
    decreases SizeOfMembers(a) + SizeOfMembers(b), 1
  {
    a.Member? ==> Get(b, a.key, cased).Some? && Compare(a.value, Get(b, a.key, cased).value, cased) && AllIn(a.rest, b, cased)
  }

  // ------------------------------------------------------------------ the meaning

  /** A JSON value as RFC 8259 sees it: an object is an unordered collection of names and values. */
  datatype Value =
    | Atom(json: Json)
    | Sequence(values: seq<Value>)
    | Table(entries: map<string, Value>)

  function Meaning(j: Json, cased: bool): Value {
    match j
    case Array(elems) => Sequence(MeaningOfElems(elems, cased))
    case Object(members) => Table(MeaningOfMembers(members, cased))
    case _ => Atom(j)
  }

  function MeaningOfElems(elems: Elems, cased: bool): seq<Value> {
    if elems.NoElems? then [] else [Meaning(elems.head, cased)] + MeaningOfElems(elems.tail, cased)
  }

  /** Of several members of one name, the first counts. */
  function MeaningOfMembers(members: Members, cased: bool): map<string, Value> {
    if members.NoMembers? then map[] else MeaningOfMembers(members.rest, cased)[Key(members.key, cased) := Meaning(members.value, cased)]
  }

  /** Wherever a name is repeated in an object, its values mean the same. */
  predicate Regular(j: Json, cased: bool)
    decreases j, 0
  {
    match j
    case Array(elems) => RegularElems(elems, cased)
    case Object(members) => Fits(members, MeaningOfMembers(members, cased), cased)
    case _ => true
  }

  predicate RegularElems(elems: Elems, cased: bool) {
    elems.Elem? ==> Regular(elems.head, cased) && RegularElems(elems.tail, cased)
  }

  /** Every member is regular and means what the table says of its name. */
  predicate Fits(members: Members, table: map<string, Value>, cased: bool) {
    members.Member? ==>
      && Regular(members.value, cased)
      && Key(members.key, cased) in table && table[Key(members.key, cased)] == Meaning(members.value, cased)
      && Fits(members.rest, table, cased)
  }

  // ------------------------------------------------------------------- the theorem

  lemma EpsilonIsSmall(max: real)
    requires 0.0 <= max <= 2147483648.0
    ensures 0.0 <= max * DBL_EPSILON < 1.0
  {
    assert max * DBL_EPSILON == max / 4503599627370496.0;
  }

  lemma IntegersCompare(x: real, y: real)
    requires IsInt32(x) && IsInt32(y)
    ensures CompareDouble(x, y) <==> x == y
  {
    EpsilonIsSmall(if Abs(x) > Abs(y) then Abs(x) else Abs(y));
    var difference := x.Floor - y.Floor;
    assert x - y == difference as real;
  }

  lemma {:induction false} GetMeans(members: Members, name: string, cased: bool)
    ensures Get(members, name, cased).Some? <==> Key(name, cased) in MeaningOfMembers(members, cased)
    ensures
      Get(members, name, cased).Some? ==>
        && Meaning(Get(members, name, cased).value, cased) == MeaningOfMembers(members, cased)[Key(name, cased)]
        && (PrintableMembers(members) ==> Printable(Get(members, name, cased).value))
  {
    if members.Member? && Key(members.key, cased) != Key(name, cased) {
      GetMeans(members.rest, name, cased);
    }
  }

  /** A table that the members fit says what they say. */
  lemma {:induction false} FittingMembersAgree(members: Members, table: map<string, Value>, key: string, cased: bool)
    requires Fits(members, table, cased) && key in MeaningOfMembers(members, cased)
    ensures key in table && table[key] == MeaningOfMembers(members, cased)[key]
  {
    if members.Member? && key in MeaningOfMembers(members.rest, cased) {
      FittingMembersAgree(members.rest, table, key, cased);
    }
  }

  lemma {:induction false} FittingMembersAreRegular(members: Members, table: map<string, Value>, name: string, cased: bool)
    requires Fits(members, table, cased) && Get(members, name, cased).Some?
    ensures Regular(Get(members, name, cased).value, cased)
  {
    if Key(members.key, cased) != Key(name, cased) {
      FittingMembersAreRegular(members.rest, table, name, cased);
    }
  }

  /** What means the same compares equal, whatever numbers are in it. */
  lemma {:induction false} SameMeaningCompares(a: Json, b: Json, cased: bool)
    requires Regular(a, cased) && Regular(b, cased) && Meaning(a, cased) == Meaning(b, cased)
    ensures Compare(a, b, cased)
    decreases Size(a) + Size(b), 0
  {
    if a.Number? {
      assert Abs(a.value - b.value) == 0.0 && Abs(a.value) * DBL_EPSILON >= 0.0;
    } else if a.Array? {
      SameElemsCompare(a.elems, b.elems, cased);
    } else if a.Object? {
      FitsAllIn(a.members, b.members, cased);
      FitsAllIn(b.members, a.members, cased);
    }
  }

  lemma {:induction false} SameElemsCompare(a: Elems, b: Elems, cased: bool)
    requires RegularElems(a, cased) && RegularElems(b, cased)
    requires MeaningOfElems(a, cased) == MeaningOfElems(b, cased)
    ensures CompareElems(a, b, cased)
    decreases SizeOfElems(a) + SizeOfElems(b), 1
  {
    var x, y := MeaningOfElems(a, cased), MeaningOfElems(b, cased);
    assert a.Elem? <==> |x| > 0;
    assert b.Elem? <==> |y| > 0;
    if a.Elem? {
      assert x[0] == Meaning(a.head, cased) && x[1..] == MeaningOfElems(a.tail, cased);
      assert y[0] == Meaning(b.head, cased) && y[1..] == MeaningOfElems(b.tail, cased);
      SameMeaningCompares(a.head, b.head, cased);
      SameElemsCompare(a.tail, b.tail, cased);
    }
  }

  lemma {:induction false} FitsAllIn(a: Members, b: Members, cased: bool)
    requires Fits(a, MeaningOfMembers(b, cased), cased) && Fits(b, MeaningOfMembers(b, cased), cased)
    ensures AllIn(a, b, cased)
    decreases SizeOfMembers(a) + SizeOfMembers(b), 1
  {
    if a.Member? {
      GetMeans(b, a.key, cased);
      FittingMembersAreRegular(b, MeaningOfMembers(b, cased), a.key, cased);
      SameMeaningCompares(a.value, Get(b, a.key, cased).value, cased);
      FitsAllIn(a.rest, b, cased);
    }
  }

  /** What compares equal means the same, if its numbers are integers, and has no name with two meanings. */
  lemma {:induction false} EqualsMeanTheSame(a: Json, b: Json, cased: bool)
    requires Printable(a) && Printable(b) && Compare(a, b, cased)
    ensures Regular(a, cased) && Regular(b, cased) && Meaning(a, cased) == Meaning(b, cased)
    decreases Size(a) + Size(b), 0
  {
    if a.Number? {
      IntegersCompare(a.value, b.value);
    } else if a.Array? {
      EqualElemsMeanTheSame(a.elems, b.elems, cased);
    } else if a.Object? {
      AllInFits(a.members, b.members, cased);
      AllInFits(b.members, a.members, cased);
      FittingTablesAreEqual(a.members, b.members, cased);
    }
  }

  lemma {:induction false} EqualElemsMeanTheSame(a: Elems, b: Elems, cased: bool)
    requires PrintableElems(a) && PrintableElems(b) && CompareElems(a, b, cased)
    ensures RegularElems(a, cased) && RegularElems(b, cased) && MeaningOfElems(a, cased) == MeaningOfElems(b, cased)
    decreases SizeOfElems(a) + SizeOfElems(b), 1
  {
    if a.Elem? && b.Elem? {
      EqualsMeanTheSame(a.head, b.head, cased);
      EqualElemsMeanTheSame(a.tail, b.tail, cased);
    }
  }

  lemma {:induction false} AllInFits(a: Members, b: Members, cased: bool)
    requires PrintableMembers(a) && PrintableMembers(b) && AllIn(a, b, cased)
    ensures Fits(a, MeaningOfMembers(b, cased), cased)
    decreases SizeOfMembers(a) + SizeOfMembers(b), 1
  {
    if a.Member? {
      GetMeans(b, a.key, cased);
      EqualsMeanTheSame(a.value, Get(b, a.key, cased).value, cased);
      AllInFits(a.rest, b, cased);
    }
  }

  lemma FittingTablesAreEqual(a: Members, b: Members, cased: bool)
    requires Fits(a, MeaningOfMembers(b, cased), cased) && Fits(b, MeaningOfMembers(a, cased), cased)
    ensures MeaningOfMembers(a, cased) == MeaningOfMembers(b, cased)
  {
    var x, y := MeaningOfMembers(a, cased), MeaningOfMembers(b, cased);
    forall name | name in x ensures name in y && x[name] == y[name] {
      FittingMembersAgree(a, y, name, cased);
    }
    forall name | name in y ensures name in x {
      FittingMembersAgree(b, x, name, cased);
    }
  }

  /** cJSON_Compare decides equality of meaning, on trees whose objects give one meaning to each name; on
      any other tree it answers no. */
  lemma CompareDecidesMeaning(a: Json, b: Json, cased: bool)
    requires Printable(a) && Printable(b)
    ensures Compare(a, b, cased) <==> Regular(a, cased) && Regular(b, cased) && Meaning(a, cased) == Meaning(b, cased)
  {
    if Compare(a, b, cased) {
      EqualsMeanTheSame(a, b, cased);
    }
    if Regular(a, cased) && Regular(b, cased) && Meaning(a, cased) == Meaning(b, cased) {
      SameMeaningCompares(a, b, cased);
    }
  }

  // ---------------------------------------------------------------- what follows

  /** It is symmetric and transitive, and reflexive exactly on the regular trees. */
  lemma CompareIsAnEquivalence(a: Json, b: Json, c: Json, cased: bool)
    requires Printable(a) && Printable(b) && Printable(c)
    ensures Compare(a, a, cased) <==> Regular(a, cased)
    ensures Compare(a, b, cased) <==> Compare(b, a, cased)
    ensures Compare(a, b, cased) && Compare(b, c, cased) ==> Compare(a, c, cased)
  {
    CompareDecidesMeaning(a, a, cased);
    CompareDecidesMeaning(a, b, cased);
    CompareDecidesMeaning(b, a, cased);
    CompareDecidesMeaning(b, c, cased);
    CompareDecidesMeaning(a, c, cased);
  }

  /** The names of a tree's objects are all different. */
  predicate UniqueKeys(j: Json, cased: bool) {
    match j
    case Array(elems) => UniqueInElems(elems, cased)
    case Object(members) => UniqueInMembers(members, cased)
    case _ => true
  }

  predicate UniqueInElems(elems: Elems, cased: bool) {
    elems.Elem? ==> UniqueKeys(elems.head, cased) && UniqueInElems(elems.tail, cased)
  }

  predicate UniqueInMembers(members: Members, cased: bool) {
    members.Member? ==>
      Get(members.rest, members.key, cased).None? && UniqueKeys(members.value, cased) && UniqueInMembers(members.rest, cased)
  }

  lemma {:induction false} UniqueKeysAreRegular(j: Json, cased: bool)
    requires Printable(j) && UniqueKeys(j, cased)
    ensures Regular(j, cased)
  {
    match j
    case Array(elems) => UniqueElemsAreRegular(elems, cased);
    case Object(members) => UniqueMembersFit(members, MeaningOfMembers(members, cased), cased);
    case _ =>
  }

  lemma {:induction false} UniqueElemsAreRegular(elems: Elems, cased: bool)
    requires PrintableElems(elems) && UniqueInElems(elems, cased)
    ensures RegularElems(elems, cased)
  {
    if elems.Elem? {
      UniqueKeysAreRegular(elems.head, cased);
      UniqueElemsAreRegular(elems.tail, cased);
    }
  }

  lemma {:induction false} UniqueMembersFit(members: Members, table: map<string, Value>, cased: bool)
    requires PrintableMembers(members) && UniqueInMembers(members, cased)
    requires forall name :: name in MeaningOfMembers(members, cased) ==>
      name in table && table[name] == MeaningOfMembers(members, cased)[name]
    ensures Fits(members, table, cased)
  {
    if members.Member? {
      UniqueKeysAreRegular(members.value, cased);
      GetMeans(members.rest, members.key, cased);
      UniqueMembersFit(members.rest, table, cased);
    }
  }

  /** With unique names, two trees compare equal exactly if they are the same up to the order of members. */
  lemma CompareIsEqualityUpToOrder(a: Json, b: Json, cased: bool)
    requires Printable(a) && Printable(b) && UniqueKeys(a, cased) && UniqueKeys(b, cased)
    ensures Compare(a, b, cased) <==> Meaning(a, cased) == Meaning(b, cased)
  {
    UniqueKeysAreRegular(a, cased);
    UniqueKeysAreRegular(b, cased);
    CompareDecidesMeaning(a, b, cased);
  }

  const REPEATED: Members := Member("a", True, Member("a", False, NoMembers))

  /** A repeated name: the tree does not compare equal to a copy of itself. */
  lemma RepeatedNamesDoNotCompare(cased: bool)
    ensures !Compare(Object(REPEATED), Object(REPEATED), cased)
  {
    var table := MeaningOfMembers(REPEATED, cased);
    assert table == MeaningOfMembers(REPEATED.rest, cased)[Key("a", cased) := Meaning(True, cased)];
    assert !Fits(REPEATED.rest, table, cased);
    CompareDecidesMeaning(Object(REPEATED), Object(REPEATED), cased);
  }

  /** It is symmetric on all trees, whatever numbers are in them. */
  lemma {:induction false} CompareIsSymmetric(a: Json, b: Json, cased: bool)
    ensures Compare(a, b, cased) <==> Compare(b, a, cased)
    decreases a
  {
    if a.Array? && b.Array? {
      ElemsCompareSymmetrically(a.elems, b.elems, cased);
    }
  }

  lemma {:induction false} ElemsCompareSymmetrically(a: Elems, b: Elems, cased: bool)
    ensures CompareElems(a, b, cased) <==> CompareElems(b, a, cased)
    decreases a
  {
    if a.Elem? && b.Elem? {
      CompareIsSymmetric(a.head, b.head, cased);
      ElemsCompareSymmetrically(a.tail, b.tail, cased);
    }
  }

  // --------------------------------------------------------- numbers of any kind

  predicate SameSign(x: real, y: real) {
    (x < 0.0 && y < 0.0) || (x == 0.0 && y == 0.0) || (x > 0.0 && y > 0.0)
  }

  function Low(x: real, y: real): real {
    if Abs(x) < Abs(y) then Abs(x) else Abs(y)
  }

  function High(x: real, y: real): real {
    if Abs(x) < Abs(y) then Abs(y) else Abs(x)
  }

  const RATIO: real := 1.0 - DBL_EPSILON

  /** Two numbers count as equal exactly if they have the same sign and the smaller is at least the larger
      times 1 - epsilon, in absolute value; in particular only 0 counts as equal to 0. */
  lemma NumbersCompare(x: real, y: real)
    ensures CompareDouble(x, y) <==> SameSign(x, y) && High(x, y) * RATIO <= Low(x, y)
  {
    var high, low := High(x, y), Low(x, y);
    assert high * RATIO == high - high * DBL_EPSILON;
    if SameSign(x, y) {
      assert Abs(x - y) == high - low;
    } else {
      assert Abs(x - y) == high + low;
      RatioShrinks(high);
    }
  }

  lemma RatioShrinks(h: real)
    requires h >= 0.0
    ensures 0.0 <= h * DBL_EPSILON <= h && 0.0 <= h * RATIO <= h
    ensures h > 0.0 ==> h * DBL_EPSILON < h && 0.0 < h * RATIO
  {
    assert h * DBL_EPSILON == h / 4503599627370496.0;
    assert h * RATIO == h - h * DBL_EPSILON;
  }

  lemma RatioIsMonotonic(a: real, b: real)
    requires a <= b
    ensures a * RATIO <= b * RATIO
  {
    RatioShrinks(b - a);
    assert b * RATIO - a * RATIO == (b - a) * RATIO;
  }

  /** High(x, y) * RATIO <= Low(x, y), for absolute values */
  predicate Near(x: real, y: real)
    requires x >= 0.0 && y >= 0.0
  {
    (if x < y then y else x) * RATIO <= if x < y then x else y
  }

  lemma NumbersAreNear(x: real, y: real)
    ensures CompareDouble(x, y) <==> SameSign(x, y) && Near(Abs(x), Abs(y)) && Near(Abs(y), Abs(x))
  {
    NumbersCompare(x, y);
  }

  lemma ThirdNumberIsBetween(x: real, y: real, z: real)
    requires CompareDouble(x, y) && CompareDouble(y, z) && !CompareDouble(x, z)
    ensures SameSign(x, z) && High(x, z) * RATIO * RATIO <= Low(x, z) < High(x, z) * RATIO
  {
    NumbersAreNear(x, y);
    NumbersAreNear(y, z);
    NumbersCompare(x, z);
    BetweenIsNear(Low(x, z), Abs(y), High(x, z));
  }

  lemma OneStepDown(low: real, high: real) returns (mid: real)
    requires 0.0 <= high && 0.0 <= low && high * RATIO * RATIO <= low < high * RATIO
    ensures mid > 0.0 && Near(low, mid) && Near(mid, low) && Near(mid, high) && Near(high, mid)
  {
    mid := high * RATIO;
    RatioShrinks(high);
    RatioShrinks(mid);
  }

  lemma ThirdNumberExists(x: real, z: real) returns (y: real)
    requires SameSign(x, z) && High(x, z) * RATIO * RATIO <= Low(x, z) < High(x, z) * RATIO
    ensures CompareDouble(x, y) && CompareDouble(y, z)
  {
    var mid := OneStepDown(Low(x, z), High(x, z));
    RatioShrinks(0.0);
    y := if x < 0.0 then -mid else mid;
    NumbersAreNear(x, y);
    NumbersAreNear(y, z);
  }

  /** So transitivity fails for x and z, over some third real number, exactly if they have the same sign and are
      apart by more than one step of 1 - epsilon but not more than two.  (For doubles see module Doubles.) */
  lemma NumbersAreTransitiveExactly(x: real, z: real)
    ensures
      (exists y :: CompareDouble(x, y) && CompareDouble(y, z)) && !CompareDouble(x, z) <==>
      SameSign(x, z) && High(x, z) * RATIO * RATIO <= Low(x, z) < High(x, z) * RATIO
  {
    if (exists y :: CompareDouble(x, y) && CompareDouble(y, z)) && !CompareDouble(x, z) {
      var y :| CompareDouble(x, y) && CompareDouble(y, z);
      ThirdNumberIsBetween(x, y, z);
    }
    if SameSign(x, z) && High(x, z) * RATIO * RATIO <= Low(x, z) < High(x, z) * RATIO {
      var y := ThirdNumberExists(x, z);
      NumbersCompare(x, z);
    }
  }

  /** For instance 1 and the two doubles that follow it. */
  lemma RealsAreNotTransitive(cased: bool)
    ensures
      var a, b, c := Number(1.0), Number(1.0 + DBL_EPSILON), Number(1.0 + 2.0 * DBL_EPSILON);
      Compare(a, b, cased) && Compare(b, c, cased) && !Compare(a, c, cased)
  {
  }

  const ALMOST_REPEATED: Members := Member("a", Number(1.0), Member("a", Number(RATIO), NoMembers))

  /** Nor is a tree with a repeated name always told from itself: these two values are not the same, but count as
      equal. */
  lemma RepeatedNumbersMayCompare(cased: bool)
    ensures Compare(Object(ALMOST_REPEATED), Object(ALMOST_REPEATED), cased)
    ensures !Regular(Object(ALMOST_REPEATED), cased)
  {
    var members, rest := ALMOST_REPEATED, ALMOST_REPEATED.rest;
    NumbersCompare(1.0, RATIO);
    NumbersCompare(1.0, 1.0);
    assert AllIn(rest.rest, members, cased);
    assert AllIn(rest, members, cased);
    var table := MeaningOfMembers(members, cased);
    assert table == MeaningOfMembers(rest, cased)[Key("a", cased) := Meaning(Number(1.0), cased)];
    assert Meaning(Number(1.0), cased) != Meaning(Number(RATIO), cased);
    assert !Fits(rest, table, cased);
  }

  /** A third number that counts as equal to both is between them, or they count as equal themselves. */
  lemma BetweenIsNear(low: real, mid: real, high: real)
    requires 0.0 <= low <= high && 0.0 <= mid
    requires Near(low, mid) && Near(mid, high)
    ensures high * RATIO <= low || high * RATIO * RATIO <= low
  {
    if low < mid {
      RatioIsMonotonic(high * RATIO, if mid < high then mid else high * RATIO);
      if high <= mid {
        RatioIsMonotonic(high, mid);
      }
    }
  }
}
