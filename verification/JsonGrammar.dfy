/** The grammar of the texts that the parser accepts, and what they denote, after RFC 8259, said without the parser; and
    that the parser accepts nothing else, and all of it that is not nested too deep
    (packages/cjson/cJSON.c:1057-1192, 1336-1388, 1465-1560, 1625-1740).  Any character up to the space is a blank here,
    NUL too; for what else differs from RFC 8259 see StringGrammar and NumberGrammar. */
module JsonGrammar {
  import opened Json
  import opened JsonString
  import opened JsonParse
  import opened JsonRoundTrip
  import SG = StringGrammar
  import NG = NumberGrammar

  predicate Blank(s: string) {
    forall i :: 0 <= i < |s| ==> s[i] as nat <= 32
  }

  /** A string, which may be misspelled if we are not strict: the parser then reads some string or other. */
  ghost predicate StringDenotes(t: string, v: string, strict: bool) {
    SG.StringText(t, v) || (!strict && SG.Misspelled(t))
  }

  /** The text of the elements of an array: the first, between blanks, and the rest, behind a comma */
  datatype ElemText = ElemText(before: string, value: string, after: string, rest: string)
  {
    function Core(): string {
      value + after + rest
    }

    function All(): string {
      before + Core()
    }
  }

  /** The text of the members of an object: the name of the first, a colon and its value, all between blanks, and the
      rest, behind a comma */
  datatype MemberText = MemberText(before: string, name: string, between: string, behind: string, value: string,
                                   after: string, rest: string)
  {
    function Core(): string {
      name + between + ":" + behind + value + after + rest
    }

    function All(): string {
      before + Core()
    }
  }

  predicate Enclosed(t: string, left: char, right: char) {
    |t| >= 2 && t[0] == left && t[|t| - 1] == right
  }

  ghost predicate Denotes(t: string, j: Json, strict: bool)
    decreases j, 1
  {
    match j
    case Null => t == "null"
    case False => t == "false"
    case True => t == "true"
    case Number(d) => NG.NumberText(t, d)
    case String(v) => StringDenotes(t, v, strict)
    case Array(elems) =>
      Enclosed(t, '[', ']') &&
      if elems.NoElems? then Blank(t[1..|t| - 1]) else ElemsDenote(t[1..|t| - 1], elems, strict)
    case Object(members) =>
      Enclosed(t, '{', '}') &&
      if members.NoMembers? then Blank(t[1..|t| - 1]) else MembersDenote(t[1..|t| - 1], members, strict)
  }

  ghost predicate ElemsDenote(t: string, elems: Elems, strict: bool)
    decreases elems, 1
  {
    elems.Elem? && exists p: ElemText :: p.All() == t && ElemsAre(p, elems, strict)
  }

  ghost predicate ElemsAre(p: ElemText, elems: Elems, strict: bool)
    requires elems.Elem?
    decreases elems, 0
  {
    && Blank(p.before) && Blank(p.after) && Denotes(p.value, elems.head, strict)
    && if elems.tail.NoElems? then p.rest == ""
       else p.rest != "" && p.rest[0] == ',' && ElemsDenote(p.rest[1..], elems.tail, strict)
  }

  ghost predicate MembersDenote(t: string, members: Members, strict: bool)
    decreases members, 1
  {
    members.Member? && exists p: MemberText :: p.All() == t && MembersAre(p, members, strict)
  }

  ghost predicate MembersAre(p: MemberText, members: Members, strict: bool)
    requires members.Member?
    decreases members, 0
  {
    && Blank(p.before) && Blank(p.between) && Blank(p.behind) && Blank(p.after)
    && StringDenotes(p.name, members.key, strict) && Denotes(p.value, members.value, strict)
    && if members.rest.NoMembers? then p.rest == ""
       else p.rest != "" && p.rest[0] == ',' && MembersDenote(p.rest[1..], members.rest, strict)
  }

  // ------------------------------------------------------------ what is accepted

  lemma {:induction false} BlanksAreSkipped(s: string) returns (b: string)
    ensures Blank(b) && s == b + SkipWhitespace(s)
  {
    if s == "" || s[0] as nat > 32 || |s| == 1 {
      b := "";
    } else {
      b := BlanksAreSkipped(s[1..]);
      b := [s[0]] + b;
    }
  }

  lemma ScalarIsDenoted(s: string) returns (t: string)
    requires ParseScalar(s).Ok?
    ensures s == t + ParseScalar(s).rest && Denotes(t, ParseScalar(s).value, false)
  {
    if ParseWord(s).Ok? {
      t := if "false" <= s && !("null" <= s) then s[..5] else s[..4];
    } else if s[0] == '"' {
      t := SG.StringIsDenoted(s);
    } else {
      t := NG.NumberIsDenoted(s);
    }
  }

  lemma Enclose(inner: string, left: char, right: char)
    ensures
      var t := [left] + inner + [right];
      Enclosed(t, left, right) && t[1..|t| - 1] == inner
  {
  }

  lemma Regroup(a: string, b: string, c: string)
    ensures a + (b + c) == (a + b) + c
  {
  }

  lemma MoreBlankBeforeElems(a: string, t: string, elems: Elems)
    requires Blank(a) && ElemsDenote(t, elems, false)
    ensures ElemsDenote(a + t, elems, false)
  {
    var p: ElemText :| p.All() == t && ElemsAre(p, elems, false);
    var p' := p.(before := a + p.before);
    Regroup(a, p.before, p.Core());
    assert ElemsAre(p', elems, false);
  }

  lemma MoreBlankBeforeMembers(a: string, t: string, members: Members)
    requires Blank(a) && MembersDenote(t, members, false)
    ensures MembersDenote(a + t, members, false)
  {
    var p: MemberText :| p.All() == t && MembersAre(p, members, false);
    var p' := p.(before := a + p.before);
    Regroup(a, p.before, p.Core());
    assert MembersAre(p', members, false);
  }

  lemma {:induction false} ValueIsDenoted(s: string, depth: nat) returns (t: string)
    requires ParseValue(s, depth).Ok?
    ensures s == t + ParseValue(s, depth).rest && Denotes(t, ParseValue(s, depth).value, false)
    decreases |s|, 2
  {
    if s != "" && s[0] == '[' {
      t := ArrayIsDenoted(s, depth);
    } else if s != "" && s[0] == '{' {
      t := ObjectIsDenoted(s, depth);
    } else {
      t := ScalarIsDenoted(s);
    }
  }

  /** Blanks and then what is inside, between brackets */
  lemma EnclosedBehindBlanks(s: string, a: string, inner: string, right: char, rest: string) returns (t: string)
    requires s != "" && s[1..] == a + (inner + ([right] + rest))
    ensures s == t + rest && Enclosed(t, s[0], right) && t[1..|t| - 1] == a + inner
  {
    t := [s[0]] + (a + inner) + [right];
    Enclose(a + inner, s[0], right);
    assert s == [s[0]] + s[1..];
    assert t + rest == [s[0]] + (a + (inner + ([right] + rest)));
  }

  lemma {:induction false} ArrayIsDenoted(s: string, depth: nat) returns (t: string)
    requires s != "" && s[0] == '[' && ParseArray(s, depth).Ok?
    ensures s == t + ParseArray(s, depth).rest && Denotes(t, ParseArray(s, depth).value, false)
    decreases |s|, 1
  {
    var s1, r := SkipWhitespace(s[1..]), ParseArray(s, depth);
    var a := BlanksAreSkipped(s[1..]);
    if s1[0] == ']' {
      assert s1 == "" + ([']'] + r.rest);
      t := EnclosedBehindBlanks(s, a, "", ']', r.rest);
    } else {
      var inner := ElemsAreDenoted(s1, depth + 1);
      MoreBlankBeforeElems(a, inner, r.value.elems);
      t := EnclosedBehindBlanks(s, a, inner, ']', r.rest);
    }
  }

  lemma {:induction false} ObjectIsDenoted(s: string, depth: nat) returns (t: string)
    requires s != "" && s[0] == '{' && ParseObject(s, depth).Ok?
    ensures s == t + ParseObject(s, depth).rest && Denotes(t, ParseObject(s, depth).value, false)
    decreases |s|, 1
  {
    var s1, r := SkipWhitespace(s[1..]), ParseObject(s, depth);
    var a := BlanksAreSkipped(s[1..]);
    if s1[0] == '}' {
      assert s1 == "" + (['}'] + r.rest);
      t := EnclosedBehindBlanks(s, a, "", '}', r.rest);
    } else {
      var inner := MembersAreDenoted(s1, depth + 1);
      MoreBlankBeforeMembers(a, inner, r.value.members);
      t := EnclosedBehindBlanks(s, a, inner, '}', r.rest);
    }
  }

  /** What ParseElems does, step by step */
  lemma ElemsStep(s: string, depth: nat)
    requires ParseElems(s, depth).Ok?
    ensures
      var (r, v) := (ParseElems(s, depth), ParseValue(SkipWhitespace(s), depth));
      && r.value.Elem? && v.Ok? && r.value.head == v.value
      && (var s2 := SkipWhitespace(v.rest);
          && s2 != ""
          && (if r.value.tail.NoElems? then s2 == "]" + r.rest
              else s2 == "," + s2[1..] && |s2| < |s| && ParseElems(s2[1..], depth) == Ok(r.value.tail, r.rest)))
  {
    var s2 := SkipWhitespace(ParseValue(SkipWhitespace(s), depth).rest);
    assert s2 == [s2[0]] + s2[1..];
  }

  /** The first element, and what is behind it */
  lemma FirstElem(p: ElemText, s: string, s1: string, v: string, s2: string, right: string)
    requires s == p.before + s1 && s1 == p.value + v && v == p.after + s2 && s2 == p.rest + right
    ensures s == p.All() + right
  {
  }

  lemma {:induction false} ElemsAreDenoted(s: string, depth: nat) returns (t: string)
    requires ParseElems(s, depth).Ok?
    ensures s == t + ("]" + ParseElems(s, depth).rest) && ElemsDenote(t, ParseElems(s, depth).value, false)
    decreases |s|, 3
  {
    ElemsStep(s, depth);
    var r, v := ParseElems(s, depth), ParseValue(SkipWhitespace(s), depth);
    var s2 := SkipWhitespace(v.rest);
    var a := BlanksAreSkipped(s);
    var value := ValueIsDenoted(SkipWhitespace(s), depth);
    var b := BlanksAreSkipped(v.rest);
    var rest := "";
    if r.value.tail.Elem? {
      var inner := ElemsAreDenoted(s2[1..], depth);
      rest := Behind(inner, s2, "]" + r.rest);
    }
    var p := ElemText(a, value, b, rest);
    FirstElem(p, s, SkipWhitespace(s), v.rest, s2, "]" + r.rest);
    assert ElemsAre(p, r.value, false);
    t := p.All();
  }

  /** What is behind a comma */
  lemma Behind(inner: string, s2: string, right: string) returns (rest: string)
    requires s2 != "" && s2[0] == ',' && s2[1..] == inner + right
    ensures s2 == rest + right && rest != "" && rest[0] == ',' && rest[1..] == inner
  {
    rest := "," + inner;
    assert s2 == "," + s2[1..];
  }

  lemma NameTogether(s: string, a: string, x: string, name: string, y: string, b: string, z: string, c: string, rest: string)
    requires s == a + x && x == name + y && y == b + (":" + z) && z == c + rest
    ensures s == a + (name + b + ":" + c + rest)
  {
  }

  lemma NameStep(s: string)
    requires s != "" && ParseName(s).Ok?
    ensures
      var (s1, r) := (SkipWhitespace(s), ParseName(s));
      && s1 != "" && ParseString(s1).Ok? && r.value == ParseString(s1).value
      && (var s2 := SkipWhitespace(ParseString(s1).rest); s2 != "" && s2 == ":" + s2[1..] && r.rest == SkipWhitespace(s2[1..]))
  {
    var s2 := SkipWhitespace(ParseString(SkipWhitespace(s)).rest);
    assert s2 == [s2[0]] + s2[1..];
  }

  /** A name and a colon, and the blanks around them */
  lemma NameIsDenoted(s: string) returns (a: string, name: string, b: string, c: string)
    requires s != "" && ParseName(s).Ok?
    ensures s == a + (name + b + ":" + c + ParseName(s).rest) && Blank(a) && Blank(b) && Blank(c)
    ensures StringDenotes(name, ParseName(s).value, false)
  {
    NameStep(s);
    var s1, rest := SkipWhitespace(s), ParseName(s).rest;
    var y := ParseString(s1).rest;
    var z := SkipWhitespace(y)[1..];
    a := BlanksAreSkipped(s);
    name := SG.StringIsDenoted(s1);
    b := BlanksAreSkipped(y);
    c := BlanksAreSkipped(z);
    NameTogether(s, a, s1, name, y, b, z, c, rest);
  }

  /** What ParseMembers does, step by step */
  lemma MembersStep(s: string, depth: nat)
    requires s != "" && ParseMembers(s, depth).Ok?
    ensures
      var (r, n) := (ParseMembers(s, depth), ParseName(s));
      && r.value.Member? && n.Ok? && r.value.key == n.value
      && (var v := ParseValue(n.rest, depth);
          && v.Ok? && r.value.value == v.value
          && (var s2 := SkipWhitespace(v.rest);
              && s2 != ""
              && (if r.value.rest.NoMembers? then s2 == "}" + r.rest
                  else |s2| > 1 && s2 == "," + s2[1..] && |s2| < |s| && ParseMembers(s2[1..], depth) == Ok(r.value.rest, r.rest))))
  {
    var s2 := SkipWhitespace(ParseMember(s, depth).rest);
    assert s2 == [s2[0]] + s2[1..];
  }

  /** The first member, and what is behind it */
  lemma FirstMember(p: MemberText, s: string, x: string, v: string, s2: string, right: string)
    requires s == p.before + (p.name + p.between + ":" + p.behind + x) && x == p.value + v && v == p.after + s2
    requires s2 == p.rest + right
    ensures s == p.All() + right
  {
  }

  lemma MembersTogether(p: MemberText, members: Members)
    requires members.Member? && MembersAre(p, members, false)
    ensures MembersDenote(p.All(), members, false)
  {
  }

  lemma {:induction false} MembersAreDenoted(s: string, depth: nat) returns (t: string)
    requires s != "" && ParseMembers(s, depth).Ok?
    ensures s == t + ("}" + ParseMembers(s, depth).rest) && MembersDenote(t, ParseMembers(s, depth).value, false)
    decreases |s|, 3
  {
    MembersStep(s, depth);
    var r, n := ParseMembers(s, depth), ParseName(s);
    var v := ParseValue(n.rest, depth);
    var s2 := SkipWhitespace(v.rest);
    var a, name, b, c := NameIsDenoted(s);
    var value := ValueIsDenoted(n.rest, depth);
    var d := BlanksAreSkipped(v.rest);
    var rest := "";
    if r.value.rest.Member? {
      var inner := MembersAreDenoted(s2[1..], depth);
      rest := Behind(inner, s2, "}" + r.rest);
    }
    var p := MemberText(a, name, b, c, value, d, rest);
    FirstMember(p, s, n.rest, v.rest, s2, "}" + r.rest);
    MembersTogether(p, r.value);
    t := p.All();
  }

  // ---------------------------------------------------------------- what is read

  lemma DenotedBegins(t: string, j: Json)
    requires Denotes(t, j, true)
    ensures t != "" && BeginsValue(t[0])
  {
    match j
    case Number(d) => NG.NumberTextIsRead(t, d, t);
    case String(v) => SG.StringTextIsRead(t, v, t);
    case _ =>
  }

  lemma WordIsRead(j: Json, t: string, s: string)
    requires (j.Null? || j.False? || j.True?) && Denotes(t, j, true) && t <= s
    ensures ParseScalar(s) == Ok(j, s[|t|..]) && s[0] != '[' && s[0] != '{'
  {
    assert s[0] == t[0];
  }

  lemma ScalarTextIsRead(j: Json, t: string, s: string)
    requires Denotes(t, j, true) && !j.Array? && !j.Object? && t <= s && (j.Number? ==> Stops(s[|t|..]))
    ensures ParseScalar(s) == Ok(j, s[|t|..]) && s[0] != '[' && s[0] != '{'
  {
    DenotedBegins(t, j);
    assert s[0] == t[0];
    match j
    case Number(d) =>
      NG.NumberTextIsRead(t, d, s);
      NoWordBegins(s);
    case String(v) =>
      SG.StringTextIsRead(t, v, s);
      NoWordBegins(s);
    case _ => WordIsRead(j, t, s);
  }

  lemma Unenclosed(t: string, left: char, right: char, s: string) returns (inner: string, s1: string)
    requires Enclosed(t, left, right) && t <= s
    ensures inner == t[1..|t| - 1] && s1 == s[1..] && s[0] == left
    ensures inner + [right] <= s1 && s1[|inner| + 1..] == s[|t|..]
  {
    inner, s1 := t[1..|t| - 1], s[1..];
    assert t[1..] == inner + [right];
    assert s1[..|inner| + 1] == s[..|t|][1..] == t[1..];
  }

  lemma BlankIsSkipped(b: string, w: string, s: string)
    requires Blank(b) && b + w <= s && w != "" && w[0] as nat > 32
    ensures SkipWhitespace(s) == s[|b|..] && w <= s[|b|..] && SkipWhitespace(s[|b|..]) == s[|b|..]
    ensures s[|b|..][|w|..] == s[|b| + |w|..]
  {
    Split(b, w, s);
    assert s[|b|] == s[|b|..][0] == w[0];
    SkipBlanks(b, s);
  }

  lemma {:induction false} ValueTextIsRead(j: Json, t: string, s: string, depth: nat)
    requires Denotes(t, j, true) && t <= s && (j.Number? ==> Stops(s[|t|..])) && depth + Height(j) <= CJSON_NESTING_LIMIT
    ensures ParseValue(s, depth) == Ok(j, s[|t|..])
    decreases j, 1
  {
    match j
    case Array(elems) => ArrayTextIsRead(elems, t, s, depth);
    case Object(members) => ObjectTextIsRead(members, t, s, depth);
    case _ => ScalarTextIsRead(j, t, s);
  }

  lemma {:induction false} ArrayTextIsRead(elems: Elems, t: string, s: string, depth: nat)
    requires Denotes(t, Array(elems), true) && t <= s && depth + 1 + HeightOfElems(elems) <= CJSON_NESTING_LIMIT
    ensures s[0] == '[' && ParseArray(s, depth) == Ok(Array(elems), s[|t|..])
    decreases elems, 2
  {
    var inner, s1 := Unenclosed(t, '[', ']', s);
    if elems.NoElems? {
      BlankIsSkipped(inner, "]", s1);
    } else {
      ElemsTextIsRead(elems, inner, s1, depth + 1);
    }
  }

  /** What follows a value is no part of a number. */
  lemma FollowedBy(after: string, z: string, y: string)
    requires Blank(after) && after + z <= y && z != "" && !IsNumberChar(z[0])
    ensures Stops(y)
  {
    assert y[0] == (after + z)[0];
  }

  /** Where the parser is before and after a value, blanks skipped */
  ghost predicate Cut(s: string, value: string, x: string, y: string, y2: string) {
    && SkipWhitespace(s) == x == SkipWhitespace(x) && x != "" && BeginsValue(x[0])
    && value <= x && y == x[|value|..] && Stops(y) && SkipWhitespace(y) == y2 != ""
  }

  /** A text at the front of s: blanks, a value, blanks, and what does not continue a number */
  lemma CutText(s: string, before: string, value: string, after: string, z: string)
    returns (x: string, y: string, y2: string)
    requires Blank(before) && Blank(after) && value != "" && BeginsValue(value[0])
    requires z != "" && z[0] as nat > 32 && !IsNumberChar(z[0]) && before + (value + (after + z)) <= s
    ensures Cut(s, value, x, y, y2) && z <= y2
    ensures y2[|z|..] == s[|before + (value + (after + z))|..]
  {
    BlankIsSkipped(before, value + (after + z), s);
    x := s[|before|..];
    Split(value, after + z, x);
    y := x[|value|..];
    assert x[0] == value[0];
    FollowedBy(after, z, y);
    BlankIsSkipped(after, z, y);
    y2 := y[|after|..];
  }

  /** What is behind the first element or member, up to the bracket */
  lemma RestIsThere(rest: string, y2: string, right: string, end: string)
    requires rest + right <= y2 && rest != "" && rest[0] == ',' && y2[|rest + right|..] == end
    ensures y2[0] == ',' && rest[1..] + right <= y2[1..] && y2[1..][|rest[1..] + right|..] == end
  {
    assert y2[0] == (rest + right)[0];
    assert rest[1..] + right == (rest + right)[1..];
    assert y2[1..][..|rest[1..] + right|] == y2[..|rest + right|][1..];
  }

  lemma CutElem(t: string, elems: Elems, s: string)
    returns (value: string, rest: string, x: string, y: string, y2: string)
    requires ElemsDenote(t, elems, true) && t + "]" <= s
    ensures Denotes(value, elems.head, true) && Cut(s, value, x, y, y2)
    ensures elems.tail.NoElems? ==> y2[0] == ']' && y2[1..] == s[|t| + 1..]
    ensures elems.tail.Elem? ==> y2[0] == ',' && ElemsDenote(rest, elems.tail, true)
    ensures elems.tail.Elem? ==> rest + "]" <= y2[1..] && y2[1..][|rest| + 1..] == s[|t| + 1..]
  {
    var p: ElemText :| p.All() == t && ElemsAre(p, elems, true);
    var z := p.rest + "]";
    value := p.value;
    DenotedBegins(value, elems.head);
    assert t + "]" == p.before + (value + (p.after + z));
    x, y, y2 := CutText(s, p.before, value, p.after, z);
    rest := "";
    if elems.tail.Elem? {
      rest := p.rest[1..];
      RestIsThere(p.rest, y2, "]", s[|t| + 1..]);
    }
  }

  lemma ElemsAreParsed(s: string, value: string, x: string, y: string, y2: string, depth: nat, head: Json)
    requires Cut(s, value, x, y, y2) && ParseValue(x, depth) == Ok(head, y)
    ensures ParseElems(x, depth) == ParseElems(s, depth)
    ensures y2[0] == ']' ==> ParseElems(s, depth) == Ok(Elem(head, NoElems), y2[1..])
    ensures y2[0] == ',' ==> ParseElems(s, depth) == WithHead(head, ParseElems(y2[1..], depth))
  {
  }

  lemma {:induction false} ElemsTextIsRead(elems: Elems, t: string, s: string, depth: nat)
    requires elems.Elem? && ElemsDenote(t, elems, true) && t + "]" <= s
    requires depth + HeightOfElems(elems) <= CJSON_NESTING_LIMIT
    ensures SkipWhitespace(s) != "" && BeginsValue(SkipWhitespace(s)[0])
    ensures ParseElems(SkipWhitespace(s), depth) == ParseElems(s, depth) == Ok(elems, s[|t| + 1..])
    decreases elems, 1
  {
    var value, rest, x, y, y2 := CutElem(t, elems, s);
    ValueTextIsRead(elems.head, value, x, depth);
    ElemsAreParsed(s, value, x, y, y2, depth, elems.head);
    if elems.tail.Elem? {
      ElemsTextIsRead(elems.tail, rest, y2[1..], depth);
    }
  }

  /** A name at the front of s, and then w */
  lemma QuotedNameIsRead(s: string, before: string, name: string, key: string, between: string, w: string)
    returns (y: string, y2: string)
    requires Blank(before) && Blank(between) && SG.StringText(name, key) && w != "" && w[0] as nat > 32
    requires before + (name + (between + w)) <= s
    ensures s != "" && SkipWhitespace(s) == SkipWhitespace(SkipWhitespace(s)) != "" && SkipWhitespace(s)[0] == '"'
    ensures ParseString(SkipWhitespace(s)) == Ok(key, y) && SkipWhitespace(y) == y2 && w <= y2
    ensures y2[|w|..] == s[|before + (name + (between + w))|..]
  {
    SG.StringTextIsRead(name, key, name);
    BlankIsSkipped(before, name + (between + w), s);
    var x := s[|before|..];
    Split(name, between + w, x);
    SG.StringTextIsRead(name, key, x);
    assert x[0] == name[0];
    y := x[|name|..];
    BlankIsSkipped(between, w, y);
    y2 := y[|between|..];
  }

  lemma NameIsParsed(s: string, key: string, y: string, y2: string, v: string)
    requires s != "" && SkipWhitespace(s) == SkipWhitespace(SkipWhitespace(s)) != ""
    requires ParseString(SkipWhitespace(s)) == Ok(key, y) && SkipWhitespace(y) == y2 != "" && y2[0] == ':'
    requires SkipWhitespace(y2[1..]) == v
    ensures ParseName(s) == ParseName(SkipWhitespace(s)) == Ok(key, v)
  {
  }

  /** A name and a colon at the front of s, and then w */
  lemma NameIsRead(s: string, before: string, name: string, key: string, between: string, behind: string, w: string)
    returns (v: string)
    requires Blank(before) && Blank(between) && Blank(behind) && SG.StringText(name, key) && w != "" && w[0] as nat > 32
    requires before + (name + (between + (":" + (behind + w)))) <= s
    ensures s != "" && SkipWhitespace(s) != "" && SkipWhitespace(s)[0] == '"'
    ensures ParseName(s) == ParseName(SkipWhitespace(s)) == Ok(key, v)
    ensures w <= v && v[|w|..] == s[|before + (name + (between + (":" + (behind + w))))|..]
  {
    var y, y2 := QuotedNameIsRead(s, before, name, key, between, ":" + (behind + w));
    Split(":", behind + w, y2);
    assert y2[0] == ':';
    BlankIsSkipped(behind, w, y2[1..]);
    v := y2[1..][|behind|..];
    NameIsParsed(s, key, y, y2, v);
  }

  lemma CutValue(v: string, value: string, after: string, z: string) returns (y: string, y2: string)
    requires Blank(after) && z != "" && z[0] as nat > 32 && !IsNumberChar(z[0]) && value + (after + z) <= v
    ensures value <= v && y == v[|value|..] && Stops(y) && SkipWhitespace(y) == y2 && z <= y2
    ensures y2[|z|..] == v[|value + (after + z)|..]
  {
    Split(value, after + z, v);
    y := v[|value|..];
    FollowedBy(after, z, y);
    BlankIsSkipped(after, z, y);
    y2 := y[|after|..];
  }

  lemma MemberIsItsParts(p: MemberText, z: string, w: string)
    requires z == p.rest + "}" && w == p.value + (p.after + z)
    ensures p.All() + "}" == p.before + (p.name + (p.between + (":" + (p.behind + w))))
  {
  }

  lemma CutMember(t: string, members: Members, s: string)
    returns (value: string, rest: string, v: string, y: string, y2: string)
    requires MembersDenote(t, members, true) && t + "}" <= s
    ensures s != "" && SkipWhitespace(s) != "" && SkipWhitespace(s)[0] == '"'
    ensures ParseName(s) == ParseName(SkipWhitespace(s)) == Ok(members.key, v)
    ensures Denotes(value, members.value, true) && value <= v && y == v[|value|..] && Stops(y)
    ensures SkipWhitespace(y) == y2 != ""
    ensures members.rest.NoMembers? ==> y2[0] == '}' && y2[1..] == s[|t| + 1..]
    ensures members.rest.Member? ==> y2[0] == ',' && |y2| > 1 && MembersDenote(rest, members.rest, true)
    ensures members.rest.Member? ==> rest + "}" <= y2[1..] && y2[1..][|rest| + 1..] == s[|t| + 1..]
  {
    var p: MemberText :| p.All() == t && MembersAre(p, members, true);
    var z := p.rest + "}";
    value := p.value;
    DenotedBegins(value, members.value);
    var w := value + (p.after + z);
    MemberIsItsParts(p, z, w);
    v := NameIsRead(s, p.before, p.name, members.key, p.between, p.behind, w);
    y, y2 := CutValue(v, value, p.after, z);
    rest := "";
    if members.rest.Member? {
      rest := p.rest[1..];
      RestIsThere(p.rest, y2, "}", s[|t| + 1..]);
    }
  }

  lemma MemberIsParsed(s: string, key: string, v: string, value: Json, y: string, depth: nat)
    requires s != "" && ParseName(s) == Ok(key, v) && ParseValue(v, depth) == Ok(value, y)
    ensures ParseMember(s, depth) == Ok((key, value), y)
  {
  }

  lemma MembersAreParsed(s: string, key: string, value: Json, y: string, y2: string, depth: nat)
    requires s != "" && ParseMember(s, depth) == Ok((key, value), y) && SkipWhitespace(y) == y2 != ""
    ensures y2[0] == '}' ==> ParseMembers(s, depth) == Ok(Member(key, value, NoMembers), y2[1..])
    ensures
      y2[0] == ',' && |y2| > 1 && ParseMembers(y2[1..], depth).Ok? ==>
        (var r := ParseMembers(y2[1..], depth); ParseMembers(s, depth) == Ok(Member(key, value, r.value), r.rest))
  {
  }

  lemma {:induction false} MembersTextIsRead(members: Members, t: string, s: string, depth: nat)
    requires members.Member? && MembersDenote(t, members, true) && t + "}" <= s
    requires depth + HeightOfMembers(members) <= CJSON_NESTING_LIMIT
    ensures s != "" && SkipWhitespace(s) != "" && SkipWhitespace(s)[0] == '"'
    ensures ParseMembers(SkipWhitespace(s), depth) == ParseMembers(s, depth) == Ok(members, s[|t| + 1..])
    decreases members, 1
  {
    var value, rest, v, y, y2 := CutMember(t, members, s);
    ValueTextIsRead(members.value, value, v, depth);
    var x := SkipWhitespace(s);
    MemberIsParsed(s, members.key, v, members.value, y, depth);
    MemberIsParsed(x, members.key, v, members.value, y, depth);
    if members.rest.Member? {
      MembersTextIsRead(members.rest, rest, y2[1..], depth);
    }
    MembersAreParsed(s, members.key, members.value, y, y2, depth);
    MembersAreParsed(x, members.key, members.value, y, y2, depth);
  }

  lemma {:induction false} ObjectTextIsRead(members: Members, t: string, s: string, depth: nat)
    requires Denotes(t, Object(members), true) && t <= s && depth + 1 + HeightOfMembers(members) <= CJSON_NESTING_LIMIT
    ensures s[0] == '{' && ParseObject(s, depth) == Ok(Object(members), s[|t|..])
    decreases members, 2
  {
    var inner, s1 := Unenclosed(t, '{', '}', s);
    if members.NoMembers? {
      BlankIsSkipped(inner, "}", s1);
    } else {
      MembersTextIsRead(members, inner, s1, depth + 1);
    }
  }

  // ------------------------------------------------------------------ whole texts

  /** Perhaps a byte order mark, a value between blanks, and NUL at the end, which is a blank too */
  ghost predicate Document(s: string, j: Json, strict: bool) {
    exists mark, before, t, after ::
      && s == mark + (before + (t + after)) && (mark == "" || mark == BOM)
      && Blank(before) && Blank(after) && after != "" && after[|after| - 1] == NUL
      && Denotes(t, j, strict)
  }

  lemma {:induction false} BlanksToTheEnd(s: string)
    requires Blank(s) && s != ""
    ensures SkipWhitespace(s) == s[|s| - 1..]
  {
    if |s| > 1 {
      BlanksToTheEnd(s[1..]);
      assert s[1..][|s| - 2..] == s[|s| - 1..];
    }
  }

  lemma MarkIsSkipped(s: string) returns (mark: string)
    ensures s == mark + SkipBom(s) && (mark == "" || mark == BOM)
  {
    mark := if |s| > 4 && BOM <= s then BOM else "";
  }

  lemma Concatenated(s: string, mark: string, s0: string, before: string, s1: string, t: string, rest: string, after: string)
    requires s == mark + s0 && s0 == before + s1 && s1 == t + rest && rest == after + [NUL] && Blank(after)
    ensures s == mark + (before + (t + (after + [NUL]))) && Blank(after + [NUL]) && s[|s| - 1] == NUL
  {
  }

  lemma DocumentIs(s: string, j: Json, strict: bool, mark: string, before: string, t: string, after: string)
    requires s == mark + (before + (t + after)) && (mark == "" || mark == BOM)
    requires Blank(before) && Blank(after) && after != "" && after[|after| - 1] == NUL && Denotes(t, j, strict)
    ensures Document(s, j, strict)
  {
  }

  lemma TextStep(s: string)
    requires ParseText(s, true).Ok?
    ensures
      var (r, end) := (ParseValue(SkipWhitespace(SkipBom(s)), 0), ParseText(s, true));
      && s != "" && r.Ok? && r.value == end.value && end.rest == SkipWhitespace(r.rest) != "" && end.rest[0] == NUL
  {
  }

  /** What is accepted where null termination is required is such a document, which denotes what was read; and the end
      that is returned is a NUL, the last character. */
  lemma AcceptedIsDocument(s: string)
    requires ParseText(s, true).Ok?
    ensures Document(s, ParseText(s, true).value, false) && Height(ParseText(s, true).value) <= CJSON_NESTING_LIMIT
    ensures ParseText(s, true).rest == [NUL] && s != "" && s[|s| - 1] == NUL
  {
    TextStep(s);
    var s0 := SkipBom(s);
    var s1 := SkipWhitespace(s0);
    var r := ParseValue(s1, 0);
    var mark := MarkIsSkipped(s);
    var before := BlanksAreSkipped(s0);
    var t := ValueIsDenoted(s1, 0);
    var after := BlanksAreSkipped(r.rest);
    NulIsLast(r.rest);
    Concatenated(s, mark, s0, before, s1, t, r.rest, after);
    DocumentIs(s, r.value, false, mark, before, t, after + [NUL]);
  }

  /** NUL is a blank: only as the last character is it not skipped. */
  lemma {:induction false} NulIsLast(s: string)
    requires SkipWhitespace(s) != "" && SkipWhitespace(s)[0] == NUL
    ensures SkipWhitespace(s) == [NUL]
  {
    if s[0] as nat <= 32 && |s| > 1 {
      NulIsLast(s[1..]);
    }
  }

  lemma DocumentStarts(s: string, mark: string, before: string, t: string, after: string)
    requires s == mark + (before + (t + after)) && (mark == "" || mark == BOM)
    requires Blank(before) && t != "" && BeginsValue(t[0]) && after != ""
    ensures s != "" && SkipWhitespace(SkipBom(s)) == t + after
  {
    var s0 := before + (t + after);
    assert s[|mark|..] == s0;
    if mark == "" {
      assert s == s0 && s0[0] == if before == "" then t[0] else before[0];
      assert s[0] != BOM[0];
    } else {
      assert s[..3] == BOM;
    }
    BlankIsSkipped(before, t + after, s0);
    assert s0[|before|..] == t + after;
  }

  lemma PartsAreAccepted(s: string, mark: string, before: string, t: string, after: string, j: Json)
    requires s == mark + (before + (t + after)) && (mark == "" || mark == BOM)
    requires Blank(before) && Blank(after) && after != "" && after[|after| - 1] == NUL && Denotes(t, j, true)
    requires Height(j) <= CJSON_NESTING_LIMIT
    ensures ParseText(s, true) == Ok(j, [NUL])
  {
    DenotedBegins(t, j);
    DocumentStarts(s, mark, before, t, after);
    TextBeforeBlanks(t, j, after);
    BlanksToTheEnd(after);
    TextIsParsed(s, t + after, j, after);
  }

  /** And every such document that is not misspelled and not nested too deep is accepted, as what it denotes. */
  lemma DocumentIsAccepted(s: string, j: Json)
    requires Document(s, j, true) && Height(j) <= CJSON_NESTING_LIMIT
    ensures ParseText(s, true) == Ok(j, [NUL])
  {
    var mark, before, t, after :| s == mark + (before + (t + after)) && (mark == "" || mark == BOM)
      && Blank(before) && Blank(after) && after != "" && after[|after| - 1] == NUL && Denotes(t, j, true);
    PartsAreAccepted(s, mark, before, t, after, j);
  }

  lemma TextBeforeBlanks(t: string, j: Json, after: string)
    requires Denotes(t, j, true) && Blank(after) && Height(j) <= CJSON_NESTING_LIMIT
    ensures ParseValue(t + after, 0) == Ok(j, after)
  {
    assert (t + after)[|t|..] == after;
    ValueTextIsRead(j, t, t + after, 0);
  }

  lemma TextIsParsed(s: string, s1: string, j: Json, rest: string)
    requires s != "" && SkipWhitespace(SkipBom(s)) == s1 && ParseValue(s1, 0) == Ok(j, rest)
    requires SkipWhitespace(rest) == [NUL]
    ensures ParseText(s, true) == Ok(j, [NUL])
  {
  }

  /** So a document denotes one tree. */
  lemma DocumentsAreUnambiguous(s: string, j: Json, j': Json)
    requires Document(s, j, true) && Document(s, j', true)
    requires Height(j) <= CJSON_NESTING_LIMIT && Height(j') <= CJSON_NESTING_LIMIT
    ensures j == j'
  {
    DocumentIsAccepted(s, j);
    DocumentIsAccepted(s, j');
  }

  /** Without null termination, a text is accepted if it begins with one. */
  lemma AcceptedBeginsWithValue(s: string) returns (mark: string, before: string, t: string)
    requires ParseText(s, false).Ok?
    ensures s == mark + (before + (t + ParseText(s, false).rest)) && (mark == "" || mark == BOM) && Blank(before)
    ensures Denotes(t, ParseText(s, false).value, false)
  {
    var s0 := SkipBom(s);
    mark := MarkIsSkipped(s);
    before := BlanksAreSkipped(s0);
    t := ValueIsDenoted(SkipWhitespace(s0), 0);
  }
}
