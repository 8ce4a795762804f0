/** Printing and parsing are inverse: the text of every printable tree, formatted or not, is read back as
    that tree, exactly if it is nested no deeper than the parser allows. */
module JsonRoundTrip {
  import opened Json
  import opened JsonString
  import opened JsonParse

  /** Nothing at the start of s continues a number. */
  predicate Stops(s: string) {
    s != "" ==> !IsNumberChar(s[0])
  }

  lemma Split(a: string, b: string, s: string)
    requires a + b <= s
    ensures a <= s && b <= s[|a|..] && s[|a|..][|b|..] == s[|a + b|..]
  {
    assert s[..|a|] == s[..|a + b|][..|a|];
    assert s[|a|..][..|b|] == s[..|a + b|][|a|..];
  }

  lemma SplitThree(a: string, b: string, c: string, s: string)
    requires a + b + c <= s
    ensures a <= s && b <= s[|a|..] && c <= s[|a|..][|b|..] && s[|a|..][|b|..][|c|..] == s[|a + b + c|..]
  {
    Split(a + b, c, s);
    Split(a, b, s);
  }

  lemma Join(a: string, b: string, s: string)
    requires a <= s && b <= s[|a|..]
    ensures a + b <= s && s[|a + b|..] == s[|a|..][|b|..]
  {
    assert s == a + s[|a|..] && s[|a|..] == b + s[|a|..][|b|..];
  }

  lemma {:induction false} SkipBlanks(w: string, s: string)
    requires w <= s && |w| < |s| && s[|w|] as nat > 32
    requires forall i :: 0 <= i < |w| ==> w[i] as nat <= 32
    ensures SkipWhitespace(s) == s[|w|..]
  {
    if w != "" {
      assert s[0] == w[0];
      SkipBlanks(w[1..], s[1..]);
      assert s[1..][|w| - 1..] == s[|w|..];
    }
  }

  // -------------------------------------------------------------------- numbers

  lemma {:induction false} NumberCharsAreAll(w: string, s: string, room: nat)
    requires w <= s && |w| <= room && Stops(s[|w|..])
    requires forall i :: 0 <= i < |w| ==> IsNumberChar(w[i])
    ensures NumberChars(s, room) == w
  {
    if w != "" {
      assert s[0] == w[0] && s[1..][|w| - 1..] == s[|w|..];
      NumberCharsAreAll(w[1..], s[1..], room - 1);
    }
  }

  lemma {:induction false} DigitRunIsAll(s: string, i: nat)
    requires i <= |s| && forall k :: i <= k < |s| ==> IsDigit(s[k])
    ensures DigitRun(s, i) == |s| - i
    decreases |s| - i
  {
    if i < |s| {
      DigitRunIsAll(s, i + 1);
    }
  }

  lemma {:induction false} DigitsAreRead(n: nat)
    ensures forall i :: 0 <= i < |Digits(n)| ==> IsDigit(Digits(n)[i])
    ensures ValueOf(Digits(n)) == n
  {
    var s := Digits(n);
    if n >= 10 {
      DigitsAreRead(n / 10);
      assert s[..|s| - 1] == Digits(n / 10);
    } else {
      assert s[..0] == "";
    }
  }

  /** Digits behind a sign, or without one, and nothing else: no fraction and no exponent. */
  lemma StrtodReads(s: string, first: nat, n: nat)
    requires first == SignAt(s, 0) && s[first..] == Digits(n)
    ensures Strtod(s) == Scan(if s[0] == '-' then -(n as real) else n as real, |s|)
  {
    DigitsAreRead(n);
    forall k | first <= k < |s| ensures IsDigit(s[k]) {
      assert s[k] == s[first..][k - first];
    }
    DigitRunIsAll(s, first);
    assert s[first..|s|] + s[|s|..|s|] == Digits(n);
  }

  lemma NumberIsParsed(s: string, t: string, v: real)
    requires NumberChars(s, NUMBER_ROOM) == t && t != "" && Strtod(t) == Scan(v, |t|)
    ensures ParseNumber(s) == Ok(Number(v), s[|t|..])
  {
  }

  lemma DecimalIsRead(i: int, s: string)
    requires INT_MIN <= i <= INT_MAX && Decimal(i) <= s && Stops(s[|Decimal(i)|..])
    ensures ParseNumber(s) == Ok(Number(i as real), s[|Decimal(i)|..])
  {
    DecimalFits(i);
    DecimalIsNumberChars(i);
    NumberCharsAreAll(Decimal(i), s, NUMBER_ROOM);
    StrtodReadsDecimal(i);
    NumberIsParsed(s, Decimal(i), i as real);
  }

  lemma DecimalIsNumberChars(i: int)
    ensures forall k :: 0 <= k < |Decimal(i)| ==> IsNumberChar(Decimal(i)[k])
  {
    DigitsAreRead(if i < 0 then -i else i);
  }

  lemma StrtodReadsDecimal(i: int)
    ensures Strtod(Decimal(i)) == Scan(i as real, |Decimal(i)|)
  {
    var n := if i < 0 then -i else i;
    DigitsAreRead(n);
    assert IsDigit(Digits(n)[0]);
    StrtodReads(Decimal(i), if i < 0 then 1 else 0, n);
  }

  // --------------------------------------------------------------------- values

  /** A character that begins a value */
  predicate BeginsValue(c: char) {
    c == 'n' || c == 'f' || c == 't' || c == '"' || c == '-' || IsDigit(c) || c == '[' || c == '{'
  }

  lemma TextBegins(j: Json, format: bool, depth: nat)
    requires Printable(j)
    ensures Text(j, format, depth) != "" && BeginsValue(Text(j, format, depth)[0])
  {
    if j.Number? {
      DigitsAreRead(if j.value < 0.0 then -j.value.Floor else j.value.Floor);
    }
  }

  /** What the round trip promises of one value, at the front of s. */
  ghost predicate ReadsAs<T>(r: Result<T>, value: T, rest: string, fits: bool) {
    if fits then r == Ok(value, rest) else r.Fail?
  }

  lemma NoWordBegins(s: string)
    requires s != "" && s[0] != 'n' && s[0] != 'f' && s[0] != 't'
    ensures ParseWord(s) == Fail(s)
  {
  }

  lemma ScalarIsRead(j: Json, format: bool, d: nat, s: string)
    requires Printable(j) && !j.Array? && !j.Object?
    requires Text(j, format, d) <= s && Stops(s[|Text(j, format, d)|..])
    ensures s[0] != '[' && s[0] != '{' && ParseScalar(s) == Ok(j, s[|Text(j, format, d)|..])
  {
    assert s[0] == Text(j, format, d)[0];
    match j
    case Null => assert ParseWord(s) == Ok(Null, s[4..]);
    case False => assert ParseWord(s) == Ok(False, s[5..]);
    case True => assert ParseWord(s) == Ok(True, s[4..]);
    case Number(x) =>
      NumberBegins(x.Floor);
      NoWordBegins(s);
      DecimalIsRead(x.Floor, s);
    case String(t) =>
      NoWordBegins(s);
      StringIsRead(t, s);
  }

  lemma NumberBegins(i: int)
    ensures Decimal(i)[0] == '-' || IsDigit(Decimal(i)[0])
  {
    DigitsAreRead(if i < 0 then -i else i);
  }

  lemma StringIsRead(t: string, s: string)
    requires IsCString(t) && Quoted(t) <= s
    ensures ParseString(s) == Ok(t, s[|Quoted(t)|..])
  {
    assert s == Quoted(t) + s[|Quoted(t)|..];
    QuotedIsRead(t, s[|Quoted(t)|..]);
  }

  lemma {:induction false} ValueIsRead(j: Json, format: bool, d: nat, s: string, depth: nat)
    requires Printable(j) && depth <= CJSON_NESTING_LIMIT
    requires Text(j, format, d) <= s && Stops(s[|Text(j, format, d)|..])
    ensures ReadsAs(ParseValue(s, depth), j, s[|Text(j, format, d)|..], depth + Height(j) <= CJSON_NESTING_LIMIT)
    decreases j, 1
  {
    match j
    case Array(elems) =>
      assert s[0] == Text(j, format, d)[0];
      if depth < CJSON_NESTING_LIMIT {
        ArrayIsRead(elems, format, d, s, depth);
      }
    case Object(members) =>
      assert s[0] == Text(j, format, d)[0];
      if depth < CJSON_NESTING_LIMIT {
        ObjectIsRead(members, format, d, s, depth);
      }
    case _ => ScalarIsRead(j, format, d, s);
  }

  lemma ArrayOpens(elems: Elems, format: bool, d: nat, s: string)
    requires PrintableElems(elems) && Text(Array(elems), format, d) <= s
    ensures TextOfElems(elems, format, d + 1) + "]" <= s[1..]
    ensures s[1..][|TextOfElems(elems, format, d + 1)| + 1..] == s[|Text(Array(elems), format, d)|..]
    ensures SkipWhitespace(s[1..]) == s[1..] && s[1..] != "" && (s[1] == ']' <==> elems.NoElems?)
  {
    var inner := TextOfElems(elems, format, d + 1);
    assert "[" + inner + "]" == "[" + (inner + "]");
    Split("[", inner + "]", s);
    ElemsBegin(elems, format, d + 1, s[1..]);
  }

  lemma {:induction false} ArrayIsRead(elems: Elems, format: bool, d: nat, s: string, depth: nat)
    requires PrintableElems(elems) && depth < CJSON_NESTING_LIMIT && Text(Array(elems), format, d) <= s
    ensures
      var n := |Text(Array(elems), format, d)|;
      ReadsAs(ParseArray(s, depth), Array(elems), s[n..], depth + 1 + HeightOfElems(elems) <= CJSON_NESTING_LIMIT)
    decreases elems, 1
  {
    ArrayOpens(elems, format, d, s);
    if elems.Elem? {
      ElemsAreRead(elems, format, d + 1, s[1..], depth + 1);
    }
  }

  /** No blank precedes the first element, and it cannot be mistaken for the closing bracket. */
  lemma ElemsBegin(elems: Elems, format: bool, d: nat, x: string)
    requires PrintableElems(elems) && TextOfElems(elems, format, d) + "]" <= x
    ensures x != "" && SkipWhitespace(x) == x && (x[0] == ']' <==> elems.NoElems?)
  {
    if elems.Elem? {
      TextBegins(elems.head, format, d);
      assert x[0] == (TextOfElems(elems, format, d) + "]")[0] == Text(elems.head, format, d)[0];
    }
  }

  lemma {:induction false} ElemsAreRead(elems: Elems, format: bool, d: nat, s: string, depth: nat)
    requires PrintableElems(elems) && elems.Elem? && depth <= CJSON_NESTING_LIMIT
    requires TextOfElems(elems, format, d) + "]" <= SkipWhitespace(s)
    ensures
      var n := |TextOfElems(elems, format, d)|;
      ReadsAs(ParseElems(s, depth), elems, SkipWhitespace(s)[n + 1..], depth + HeightOfElems(elems) <= CJSON_NESTING_LIMIT)
    decreases elems, 0
  {
    var x := SkipWhitespace(s);
    var y := ElemIsFollowed(elems, format, d, x);
    ValueIsRead(elems.head, format, d, x, depth);
    if depth + Height(elems.head) <= CJSON_NESTING_LIMIT && elems.tail.Elem? {
      CommaIsSkipped(elems.tail, format, d, y);
      ElemsAreRead(elems.tail, format, d, y[1..], depth);
    }
  }

  lemma ElemIsFollowed(elems: Elems, format: bool, d: nat, x: string) returns (y: string)
    requires elems.Elem? && TextOfElems(elems, format, d) + "]" <= x
    ensures
      var head, comma, after := Text(elems.head, format, d), Comma(elems.tail, format), TextOfElems(elems.tail, format, d);
      && head <= x && y == x[|head|..] && Stops(y)
      && y != "" && y[0] == (if elems.tail.Elem? then ',' else ']')
      && comma <= y && after + "]" <= y[|comma|..]
      && y[|comma|..][|after| + 1..] == x[|TextOfElems(elems, format, d)| + 1..]
  {
    var head, comma := Text(elems.head, format, d), Comma(elems.tail, format);
    var after := TextOfElems(elems.tail, format, d) + "]";
    assert TextOfElems(elems, format, d) + "]" == head + (comma + after);
    Split(head, comma + after, x);
    y := x[|head|..];
    Split(comma, after, y);
    assert y[0] == (comma + after)[0];
  }

  lemma CommaIsSkipped(tail: Elems, format: bool, d: nat, y: string)
    requires PrintableElems(tail) && tail.Elem?
    requires Comma(tail, format) <= y && TextOfElems(tail, format, d) + "]" <= y[|Comma(tail, format)|..]
    ensures SkipWhitespace(y[1..]) == y[|Comma(tail, format)|..]
  {
    var blank := if format then " " else "";
    var n := |Comma(tail, format)|;
    ElemsBegin(tail, format, d, y[n..]);
    assert y[n..][0] == y[1..][|blank|] && y[1..][|blank|..] == y[n..];
    if format {
      assert y[1] == Comma(tail, format)[1];
    }
    assert y[n..][0] as nat > 32 by {
      TextBegins(tail.head, format, d);
      assert y[n..][0] == (TextOfElems(tail, format, d) + "]")[0] == Text(tail.head, format, d)[0];
    }
    SkipBlanks(blank, y[1..]);
  }

  // -------------------------------------------------------------------- objects

  function Indent(format: bool, d: nat): (r: string)
    ensures forall i :: 0 <= i < |r| ==> r[i] as nat <= 32
  {
    If(format, Tabs(d))
  }

  function NewLine(format: bool): (r: string)
    ensures forall i :: 0 <= i < |r| ==> r[i] as nat <= 32
  {
    If(format, "\n")
  }

  /** Blanks and then w at the front of s: s reads as w does. */
  lemma BlanksThen(blanks: string, w: string, s: string)
    requires blanks <= s && w <= s[|blanks|..] && w != "" && w[0] as nat > 32
    requires forall i :: 0 <= i < |blanks| ==> blanks[i] as nat <= 32
    ensures SkipWhitespace(s) == s[|blanks|..]
  {
    assert s[|blanks|] == s[|blanks|..][0] == w[0];
    SkipBlanks(blanks, s);
  }

  /** A member behind its indentation. */
  function Entry(key: string, text: string, format: bool): string {
    Quoted(key) + Colon(format) + text
  }

  lemma EntrySplits(key: string, text: string, format: bool, k: string) returns (k1: string)
    requires Entry(key, text, format) <= k
    ensures Quoted(key) <= k && k1 == k[|Quoted(key)|..] && Colon(format) <= k1 && text <= k1[|Colon(format)|..]
    ensures k1[|Colon(format)|..][|text|..] == k[|Entry(key, text, format)|..]
  {
    SplitThree(Quoted(key), Colon(format), text, k);
    k1 := k[|Quoted(key)|..];
  }

  lemma NameIsRead(key: string, j: Json, format: bool, d: nat, s: string) returns (v: string)
    requires IsCString(key) && Printable(j) && s != "" && Entry(key, Text(j, format, d), format) <= SkipWhitespace(s)
    ensures ParseName(s) == Ok(key, v) && Text(j, format, d) <= v
    ensures v[|Text(j, format, d)|..] == SkipWhitespace(s)[|Entry(key, Text(j, format, d), format)|..]
  {
    var k1 := EntrySplits(key, Text(j, format, d), format, SkipWhitespace(s));
    StringIsRead(key, SkipWhitespace(s));
    ColonIsSkipped(format, Text(j, format, d), k1, j, d);
    v := k1[|Colon(format)|..];
  }

  lemma {:induction false} MemberIsRead(key: string, j: Json, format: bool, d: nat, s: string, depth: nat)
    requires IsCString(key) && Printable(j) && depth <= CJSON_NESTING_LIMIT && s != ""
    requires
      var entry := Entry(key, Text(j, format, d), format);
      entry <= SkipWhitespace(s) && Stops(SkipWhitespace(s)[|entry|..])
    ensures
      var entry := Entry(key, Text(j, format, d), format);
      ReadsAs(ParseMember(s, depth), (key, j), SkipWhitespace(s)[|entry|..], depth + Height(j) <= CJSON_NESTING_LIMIT)
    decreases j, 2
  {
    var v := NameIsRead(key, j, format, d, s);
    ValueIsRead(j, format, d, v, depth);
  }

  lemma ColonIsSkipped(format: bool, text: string, k: string, j: Json, d: nat)
    requires Printable(j) && text == Text(j, format, d)
    requires Colon(format) <= k && text <= k[|Colon(format)|..]
    ensures SkipWhitespace(k) == k && k[0] == ':' && SkipWhitespace(k[1..]) == k[|Colon(format)|..]
  {
    assert k[0] == Colon(format)[0];
    var blank := if format then "\t" else "";
    if format {
      assert k[1] == Colon(format)[1];
    }
    assert k[1..][|blank|..] == k[|Colon(format)|..];
    TextBegins(j, format, d);
    BlanksThen(blank, text, k[1..]);
  }

  /** What follows a member: the next line, or the closing brace. */
  function Following(members: Members, format: bool, d: nat): string
    requires members.Member? && d > 0
  {
    EndOfLine(members.rest.NoMembers?, format) + (TextOfMembers(members.rest, format, d) + ClosingBrace(format, d - 1))
  }

  lemma LinesSplit(members: Members, format: bool, d: nat)
    requires members.Member? && d > 0
    ensures
      var entry := Entry(members.key, Text(members.value, format, d), format);
      TextOfMembers(members, format, d) + ClosingBrace(format, d - 1) == Indent(format, d) + (entry + Following(members, format, d))
  {
    LineSplits(members.key, Text(members.value, format, d), members.rest.NoMembers?, format, d);
    Regroup(Indent(format, d), Entry(members.key, Text(members.value, format, d), format),
            EndOfLine(members.rest.NoMembers?, format), TextOfMembers(members.rest, format, d), ClosingBrace(format, d - 1));
  }

  lemma Regroup(a: string, b: string, c: string, d: string, e: string)
    ensures ((a + b + c) + d) + e == a + (b + (c + (d + e)))
  {
  }

  lemma LineSplits(key: string, text: string, last: bool, format: bool, d: nat)
    ensures Line(key, text, last, format, d) == Indent(format, d) + Entry(key, text, format) + EndOfLine(last, format)
  {
  }

  lemma LastMemberIsParsed(s: string, depth: nat, key: string, v: Json, e: string)
    requires s != "" && ParseMember(s, depth) == Ok((key, v), e)
    requires SkipWhitespace(e) != "" && SkipWhitespace(e)[0] == '}'
    ensures ParseMembers(s, depth) == Ok(Member(key, v, NoMembers), SkipWhitespace(e)[1..])
  {
  }

  lemma FirstMemberIsParsed(s: string, depth: nat, key: string, v: Json, e: string)
    requires s != "" && ParseMember(s, depth) == Ok((key, v), e)
    requires SkipWhitespace(e) == e && |e| > 1 && e[0] == ','
    ensures
      var r := ParseMembers(e[1..], depth);
      ParseMembers(s, depth) == if r.Ok? then Ok(Member(key, v, r.value), r.rest) else r
  {
  }

  /** The lines of an object, closing brace included, are at the front of y; behind them is rest. */
  ghost predicate LinesBefore(members: Members, format: bool, d: nat, y: string, rest: string)
    requires d > 0
  {
    var lines := TextOfMembers(members, format, d) + ClosingBrace(format, d - 1);
    lines <= y && y[|lines|..] == rest
  }

  lemma {:induction false} MembersAreRead(members: Members, format: bool, d: nat, s: string, y: string, rest: string, depth: nat)
    requires PrintableMembers(members) && members.Member? && depth <= CJSON_NESTING_LIMIT && d > 0 && s != ""
    requires LinesBefore(members, format, d, y, rest)
    requires |Indent(format, d)| <= |y| && SkipWhitespace(s) == y[|Indent(format, d)|..]
    ensures ReadsAs(ParseMembers(s, depth), members, rest, depth + HeightOfMembers(members) <= CJSON_NESTING_LIMIT)
    decreases members, 0
  {
    var e := MemberIsFollowed(members, format, d, y);
    MemberIsRead(members.key, members.value, format, d, s, depth);
    if depth + Height(members.value) <= CJSON_NESTING_LIMIT {
      if members.rest.NoMembers? {
        LastLineIsSkipped(format, d, e);
        LastMemberIsParsed(s, depth, members.key, members.value, e);
      } else {
        var y' := LineEndIsSplit(members, format, d, e);
        LineEndIsSkipped(members.rest, format, d, e);
        MembersAreRead(members.rest, format, d, e[1..], y', rest, depth);
        FirstMemberIsParsed(s, depth, members.key, members.value, e);
      }
    }
  }

  lemma MemberIsFollowed(members: Members, format: bool, d: nat, y: string) returns (e: string)
    requires members.Member? && d > 0
    requires TextOfMembers(members, format, d) + ClosingBrace(format, d - 1) <= y
    ensures |Indent(format, d)| <= |y|
    ensures
      var entry, x := Entry(members.key, Text(members.value, format, d), format), y[|Indent(format, d)|..];
      entry <= x && e == x[|entry|..] && Following(members, format, d) <= e && Stops(e)
    ensures e[|Following(members, format, d)|..] == y[|TextOfMembers(members, format, d) + ClosingBrace(format, d - 1)|..]
  {
    var entry, end := Entry(members.key, Text(members.value, format, d), format), Following(members, format, d);
    LinesSplit(members, format, d);
    Split(Indent(format, d), entry + end, y);
    Split(entry, end, y[|Indent(format, d)|..]);
    e := y[|Indent(format, d)|..][|entry|..];
    assert e[0] == end[0];
  }

  lemma LineEndIsSplit(members: Members, format: bool, d: nat, e: string) returns (y: string)
    requires members.Member? && members.rest.Member? && d > 0 && Following(members, format, d) <= e
    ensures EndOfLine(false, format) <= e && y == e[|EndOfLine(false, format)|..]
    ensures TextOfMembers(members.rest, format, d) + ClosingBrace(format, d - 1) <= y
    ensures
      y[|TextOfMembers(members.rest, format, d) + ClosingBrace(format, d - 1)|..] == e[|Following(members, format, d)|..]
  {
    Split(EndOfLine(false, format), TextOfMembers(members.rest, format, d) + ClosingBrace(format, d - 1), e);
    y := e[|EndOfLine(false, format)|..];
  }

  lemma LastLineIsSkipped(format: bool, d: nat, e: string)
    requires d > 0 && EndOfLine(true, format) + ("" + ClosingBrace(format, d - 1)) <= e
    ensures SkipWhitespace(e) != "" && SkipWhitespace(e)[0] == '}'
    ensures SkipWhitespace(e)[1..] == e[|EndOfLine(true, format) + ("" + ClosingBrace(format, d - 1))|..]
  {
    var blanks := NewLine(format) + Indent(format, d - 1);
    assert EndOfLine(true, format) + ("" + ClosingBrace(format, d - 1)) == blanks + "}";
    Split(blanks, "}", e);
    BlanksThen(blanks, "}", e);
    assert e[|blanks|] == e[|blanks|..][0];
  }

  lemma LineEndIsSkipped(rest: Members, format: bool, d: nat, e: string)
    requires rest.Member? && d > 0 && EndOfLine(false, format) <= e
    requires TextOfMembers(rest, format, d) + ClosingBrace(format, d - 1) <= e[|EndOfLine(false, format)|..]
    ensures e[0] == ',' && |e| > 1 && |EndOfLine(false, format)| + |Indent(format, d)| <= |e|
    ensures SkipWhitespace(e) == e
    ensures SkipWhitespace(e[1..]) == e[|EndOfLine(false, format)|..][|Indent(format, d)|..]
  {
    assert EndOfLine(false, format) == "," + NewLine(format);
    Split(",", NewLine(format), e);
    LineIsReached(rest, format, d, e[1..], NewLine(format));
  }

  /** Behind a new line, the indentation of the next member is skipped, up to its name. */
  lemma LineIsReached(members: Members, format: bool, d: nat, s: string, blanks: string)
    requires members.Member? && d > 0 && blanks <= s
    requires TextOfMembers(members, format, d) + ClosingBrace(format, d - 1) <= s[|blanks|..]
    requires forall i :: 0 <= i < |blanks| ==> blanks[i] as nat <= 32
    ensures |blanks| + |Indent(format, d)| < |s|
    ensures SkipWhitespace(s) == s[|blanks|..][|Indent(format, d)|..] && SkipWhitespace(s)[0] == '"'
  {
    var entry, y := Entry(members.key, Text(members.value, format, d), format), s[|blanks|..];
    LinesSplit(members, format, d);
    Split(Indent(format, d), entry + Following(members, format, d), y);
    Split(entry, Following(members, format, d), y[|Indent(format, d)|..]);
    var all := blanks + Indent(format, d);
    Join(blanks, Indent(format, d), s);
    assert entry[0] == '"';
    BlanksThen(all, entry, s);
    assert SkipWhitespace(s)[0] == entry[0];
  }

  lemma ObjectOpens(members: Members, format: bool, d: nat, s: string) returns (s1: string, y: string)
    requires members.Member? && Text(Object(members), format, d) <= s
    ensures LinesBefore(members, format, d + 1, y, s[|Text(Object(members), format, d)|..])
    ensures s1 == SkipWhitespace(s[1..]) && s1 != "" && s1[0] == '"'
    ensures |Indent(format, d + 1)| <= |y| && SkipWhitespace(s1) == y[|Indent(format, d + 1)|..]
  {
    y := BraceIsFollowed(members, format, d, s);
    LineIsReached(members, format, d + 1, s[1..], NewLine(format));
    s1 := SkipWhitespace(s[1..]);
  }

  lemma {:induction false} ObjectIsRead(members: Members, format: bool, d: nat, s: string, depth: nat)
    requires PrintableMembers(members) && depth < CJSON_NESTING_LIMIT && Text(Object(members), format, d) <= s
    ensures
      var n := |Text(Object(members), format, d)|;
      ReadsAs(ParseObject(s, depth), Object(members), s[n..], depth + 1 + HeightOfMembers(members) <= CJSON_NESTING_LIMIT)
    decreases members, 3
  {
    if members == NoMembers {
      EmptyObjectIsRead(format, d, s, depth);
    } else {
      FullObjectIsRead(members, format, d, s, depth);
    }
  }

  lemma {:induction false} FullObjectIsRead(members: Members, format: bool, d: nat, s: string, depth: nat)
    requires PrintableMembers(members) && members.Member?
    requires depth < CJSON_NESTING_LIMIT && Text(Object(members), format, d) <= s
    ensures
      var n := |Text(Object(members), format, d)|;
      ReadsAs(ParseObject(s, depth), Object(members), s[n..], depth + 1 + HeightOfMembers(members) <= CJSON_NESTING_LIMIT)
    decreases members, 2
  {
    var rest := s[|Text(Object(members), format, d)|..];
    LinesOfObjectAreRead(members, format, d, s, rest, depth);
    ObjectOfMembers(s, depth, members, rest, depth + 1 + HeightOfMembers(members) <= CJSON_NESTING_LIMIT);
  }

  lemma {:induction false} LinesOfObjectAreRead(members: Members, format: bool, d: nat, s: string, rest: string, depth: nat)
    requires PrintableMembers(members) && members.Member?
    requires depth < CJSON_NESTING_LIMIT && Text(Object(members), format, d) <= s
    requires rest == s[|Text(Object(members), format, d)|..]
    ensures SkipWhitespace(s[1..]) != "" && SkipWhitespace(s[1..])[0] == '"'
    ensures ReadsAs(ParseMembers(SkipWhitespace(s[1..]), depth + 1), members, rest,
                    depth + 1 + HeightOfMembers(members) <= CJSON_NESTING_LIMIT)
    decreases members, 1
  {
    var s1, y := ObjectOpens(members, format, d, s);
    var inner := d + 1;
    assert LinesBefore(members, format, inner, y, rest);
    MembersAreRead(members, format, inner, s1, y, rest, depth + 1);
  }

  lemma ObjectOfMembers(s: string, depth: nat, members: Members, rest: string, fits: bool)
    requires s != "" && depth < CJSON_NESTING_LIMIT
    requires SkipWhitespace(s[1..]) != "" && SkipWhitespace(s[1..])[0] == '"'
    requires ReadsAs(ParseMembers(SkipWhitespace(s[1..]), depth + 1), members, rest, fits)
    ensures ReadsAs(ParseObject(s, depth), Object(members), rest, fits)
  {
  }

  lemma EmptyObjectIsRead(format: bool, d: nat, s: string, depth: nat)
    requires depth < CJSON_NESTING_LIMIT && Text(Object(NoMembers), format, d) <= s
    ensures ParseObject(s, depth) == Ok(Object(NoMembers), s[|Text(Object(NoMembers), format, d)|..])
  {
    EmptyObjectIsSkipped(format, d, s);
  }

  lemma BraceIsFollowed(members: Members, format: bool, d: nat, s: string) returns (y: string)
    requires Text(Object(members), format, d) <= s
    ensures NewLine(format) <= s[1..] && y == s[1..][|NewLine(format)|..]
    ensures TextOfMembers(members, format, d + 1) + ClosingBrace(format, d) <= y
    ensures
      y[|TextOfMembers(members, format, d + 1) + ClosingBrace(format, d)|..] == s[|Text(Object(members), format, d)|..]
  {
    var lines := TextOfMembers(members, format, d + 1) + ClosingBrace(format, d);
    assert Text(Object(members), format, d) == Brace(format) + lines;
    Split(Brace(format), lines, s);
    y := s[|Brace(format)|..];
    if format {
      assert s[1] == Brace(format)[1];
    }
    assert s[1..][|NewLine(format)|..] == y;
  }

  lemma EmptyObjectIsSkipped(format: bool, d: nat, s: string)
    requires Text(Object(NoMembers), format, d) <= s
    ensures SkipWhitespace(s[1..]) != "" && SkipWhitespace(s[1..])[0] == '}'
    ensures SkipWhitespace(s[1..])[1..] == s[|Text(Object(NoMembers), format, d)|..]
  {
    var blanks := NewLine(format) + Indent(format, d);
    assert Text(Object(NoMembers), format, d) == "{" + (blanks + "}");
    Split("{", blanks + "}", s);
    Split(blanks, "}", s[1..]);
    BlanksThen(blanks, "}", s[1..]);
    assert s[1..][|blanks|..][0] == '}';
  }

  // ------------------------------------------------------------------ whole texts

  /** A printed tree, with its terminator, is accepted by cJSON_ParseWithOpts, null termination required or
      not, exactly if it is nested no deeper than CJSON_NESTING_LIMIT; and then it is read as the same tree. */
  lemma PrintedTextIsRead(j: Json, format: bool, requireNullTerminated: bool)
    requires Printable(j)
    ensures
      var s := Text(j, format, 0) + [NUL];
      ReadsAs(ParseText(s, requireNullTerminated), j, [NUL], Height(j) <= CJSON_NESTING_LIMIT)
  {
    var text := Text(j, format, 0);
    var s := text + [NUL];
    TextBegins(j, format, 0);
    assert s[0] == text[0] && s[|text|..] == [NUL];
    ValueIsRead(j, format, 0, s, 0);
  }

  /** A text that was accepted can be printed and read again, and again gives the same tree: what is parsed is
      never nested too deep to be parsed. */
  lemma ParsedTextSurvivesPrinting(text: string, requireNullTerminated: bool, format: bool)
    ensures
      var r := ParseText(text, requireNullTerminated);
      r.Ok? && Printable(r.value) ==> ParseText(Text(r.value, format, 0) + [NUL], true) == Ok(r.value, [NUL])
  {
    var r := ParseText(text, requireNullTerminated);
    if r.Ok? && Printable(r.value) {
      PrintedTextIsRead(r.value, format, true);
    }
  }

  /** So different trees have different texts. */
  lemma TextIsInjective(a: Json, b: Json, format: bool)
    requires Printable(a) && Printable(b)
    requires Height(a) <= CJSON_NESTING_LIMIT && Height(b) <= CJSON_NESTING_LIMIT
    requires Text(a, format, 0) == Text(b, format, 0)
    ensures a == b
  {
    PrintedTextIsRead(a, format, true);
    PrintedTextIsRead(b, format, true);
  }
}
