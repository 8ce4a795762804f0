/** What the cJSON parser computes, as functions of the text that is left to read
    (packages/cjson/cJSON.c:307-381, 792-919, 1057-1192, 1336-1388, 1465-1560, 1625-1740). */
module JsonParse {
  import opened Json
  import opened JsonString

  const CJSON_NESTING_LIMIT: nat := 1000
  const NUMBER_ROOM: nat := 63  // sizeof(number_c_string) - 1

  /** buffer_skip_whitespace: at the end of the text it steps back onto the last character. */
  function SkipWhitespace(s: string): (r: string)
    ensures |r| <= |s| && (s != "" ==> r != "")
  {
    if s == "" || s[0] as nat > 32 || |s| == 1 then s else SkipWhitespace(s[1..])
  }

  // -------------------------------------------------------------------- numbers

  predicate IsDigit(c: char) {
    '0' <= c <= '9'
  }

  predicate IsNumberChar(c: char) {
    IsDigit(c) || c == '+' || c == '-' || c == 'e' || c == 'E' || c == '.'
  }

  /** What parse_number copies for strtod. */
  function NumberChars(s: string, room: nat): (r: string)
    ensures r <= s && |r| <= room
  {
    if s == "" || room == 0 || !IsNumberChar(s[0]) then "" else [s[0]] + NumberChars(s[1..], room - 1)
  }

  /** How many digits there are from i on. */
  function DigitRun(s: string, i: nat): (n: nat)
    requires i <= |s|
    ensures i + n <= |s| && forall k :: i <= k < i + n ==> IsDigit(s[k])
    decreases |s| - i
  {
    if i == |s| || !IsDigit(s[i]) then 0 else 1 + DigitRun(s, i + 1)
  }

  function DigitValue(c: char): (d: nat)
    requires IsDigit(c)
    ensures d < 10
  {
    c as nat - '0' as nat
  }

  function ValueOf(digits: string): nat
    requires forall i :: 0 <= i < |digits| ==> IsDigit(digits[i])
  {
    if digits == "" then 0
    else ValueOf(digits[..|digits| - 1]) * 10 + DigitValue(digits[|digits| - 1])
  }

  function SignAt(s: string, i: nat): (n: nat)
    ensures n <= 1 && (n == 1 ==> i < |s|)
  {
    if i < |s| && (s[i] == '+' || s[i] == '-') then 1 else 0
  }

  /** What strtod accepts of decimal notation; a length of 0 means it accepts nothing. */
  datatype Scan = Scan(value: real, length: nat)

  function Strtod(s: string): (r: Scan)
    ensures r.length <= |s|
  {
    var first := SignAt(s, 0);
    var whole := DigitRun(s, first);
    var point := first + whole;
    var dot := if point < |s| && s[point] == '.' then 1 else 0;
    var fraction := if dot == 1 then DigitRun(s, point + 1) else 0;
    if whole + fraction == 0 then Scan(0.0, 0)
    else
      var end := point + dot + fraction;
      var digits := s[first..point] + s[point + dot..end];
      assert forall i :: 0 <= i < whole ==> digits[i] == s[first + i];
      assert forall i :: whole <= i < whole + fraction ==> digits[i] == s[point + dot + (i - whole)];
      var exponent := Exponent(s, end);
      Scan(DecimalValue(s[0] == '-', digits, fraction, exponent.0), end + exponent.1)
  }

  /** The value of digits of which some are behind the point */
  function DecimalValue(minus: bool, digits: string, fraction: nat, exponent: int): real
    requires forall i :: 0 <= i < |digits| ==> IsDigit(digits[i])
  {
    Power10IsPositive(fraction);
    var magnitude := ValueOf(digits) as real / Power10(fraction) as real;
    Scale(if minus then -magnitude else magnitude, exponent)
  }

  /** The exponent at i and its length, if there is one with digits. */
  function Exponent(s: string, i: nat): (r: (int, int))
    requires i <= |s|
    ensures 0 <= r.1 && i + r.1 <= |s|
  {
    if i < |s| && (s[i] == 'e' || s[i] == 'E') then
      var first := i + 1 + SignAt(s, i + 1);
      var n := DigitRun(s, first);
      var e: int := ValueOf(s[first..first + n]);
      if n == 0 then (0, 0) else (if s[i + 1] == '-' then -e else e, first + n - i)
    else (0, 0)
  }

  lemma Power10IsPositive(k: nat)
    ensures Power10(k) > 0
  {
  }

  function Scale(value: real, exponent: int): real {
    Power10IsPositive(if exponent < 0 then -exponent else exponent);
    if exponent < 0 then value / Power10(-exponent) as real else value * Power10(exponent) as real
  }

  function ParseNumber(s: string): (r: Result<Json>)
    ensures r.Ok? ==> |r.rest| < |s|
  {
    var n := Strtod(NumberChars(s, NUMBER_ROOM));
    if n.length == 0 then Fail(s) else Ok(Json.Number(n.value), s[n.length..])
  }

  // --------------------------------------------------------------------- values

  /** null, false or true */
  function ParseWord(s: string): (r: Result<Json>)
    ensures r.Ok? ==> |r.rest| < |s| && (r.value.Null? || r.value.False? || r.value.True?)
  {
    if "null" <= s then Ok(Null, s[4..])
    else if "false" <= s then Ok(False, s[5..])
    else if "true" <= s then Ok(True, s[4..])
    else Fail(s)
  }

  /** A value that is neither an array nor an object. */
  function ParseScalar(s: string): (r: Result<Json>)
    ensures r.Ok? ==> |r.rest| < |s| && Height(r.value) == 0
  {
    if ParseWord(s).Ok? then ParseWord(s)
    else if s != "" && s[0] == '"' then
      var r := ParseString(s);
      if r.Ok? then Ok(String(r.value), r.rest) else Fail(r.rest)
    else if s != "" && (s[0] == '-' || IsDigit(s[0])) then ParseNumber(s)
    else Fail(s)
  }

  /** The text of one value, read at a depth of nesting.  No tree is read that is nested deeper than the
      limit, so recursion over it is bounded. */
  function ParseValue(s: string, depth: nat): (r: Result<Json>)
    ensures r.Ok? ==> |r.rest| < |s|
    ensures r.Ok? && depth <= CJSON_NESTING_LIMIT ==> depth + Height(r.value) <= CJSON_NESTING_LIMIT
    decreases |s|, 2
  {
    if s != "" && s[0] == '[' then ParseArray(s, depth)
    else if s != "" && s[0] == '{' then ParseObject(s, depth)
    else ParseScalar(s)
  }

  function ParseArray(s: string, depth: nat): (r: Result<Json>)
    requires s != ""
    ensures r.Ok? ==> |r.rest| < |s|
    ensures r.Ok? && depth <= CJSON_NESTING_LIMIT ==> depth + Height(r.value) <= CJSON_NESTING_LIMIT
    decreases |s|, 1
  {
    if depth >= CJSON_NESTING_LIMIT then Fail(s)
    else
      var s1 := SkipWhitespace(s[1..]);
      if s1 == "" then Fail(s)
      else if s1[0] == ']' then Ok(Array(NoElems), s1[1..])
      else
        var r := ParseElems(s1, depth + 1);
        if r.Ok? then Ok(Array(r.value), r.rest) else Fail(r.rest)
  }

  function WithHead(head: Json, r: Result<Elems>): (r': Result<Elems>)
    ensures r'.rest == r.rest && (r.Ok? <==> r'.Ok?)
    ensures r.Ok? ==> r'.value == Elem(head, r.value) && HeightOfElems(r'.value) == Max(Height(head), HeightOfElems(r.value))
  {
    if r.Ok? then Ok(Elem(head, r.value), r.rest) else r
  }

  /** The elements that follow an opening bracket or a comma, up to the closing bracket. */
  function ParseElems(s: string, depth: nat): (r: Result<Elems>)
    ensures r.Ok? ==> |r.rest| < |s|
    ensures r.Ok? && depth <= CJSON_NESTING_LIMIT ==> depth + HeightOfElems(r.value) <= CJSON_NESTING_LIMIT
    decreases |s|, 3
  {
    var v := ParseValue(SkipWhitespace(s), depth);
    if v.Fail? then Fail(v.rest)
    else
      var s2 := SkipWhitespace(v.rest);
      if s2 != "" && s2[0] == ',' then
        WithHead(v.value, ParseElems(s2[1..], depth))
      else if s2 != "" && s2[0] == ']' then Ok(Elem(v.value, NoElems), s2[1..])
      else Fail(s2)
  }

  function ParseObject(s: string, depth: nat): (r: Result<Json>)
    requires s != ""
    ensures r.Ok? ==> |r.rest| < |s|
    ensures r.Ok? && depth <= CJSON_NESTING_LIMIT ==> depth + Height(r.value) <= CJSON_NESTING_LIMIT
    decreases |s|, 1
  {
    if depth >= CJSON_NESTING_LIMIT then Fail(s)
    else
      var s1 := SkipWhitespace(s[1..]);
      if s1 == "" then Fail(s)
      else if s1[0] == '}' then Ok(Object(NoMembers), s1[1..])
      else
        var r := ParseMembers(s1, depth + 1);
        if r.Ok? then Ok(Object(r.value), r.rest) else Fail(r.rest)
  }

  /** A name and a colon. */
  function ParseName(s: string): (r: Result<string>)
    requires s != ""
    ensures r.Ok? ==> |r.rest| < |s|
  {
    var name := ParseString(SkipWhitespace(s));
    if name.Fail? then name
    else
      var s2 := SkipWhitespace(name.rest);
      if s2 == "" || s2[0] != ':' then Fail(s2) else Ok(name.value, SkipWhitespace(s2[1..]))
  }

  /** A name, a colon and a value. */
  function ParseMember(s: string, depth: nat): (r: Result<(string, Json)>)
    requires s != ""
    ensures r.Ok? ==> |r.rest| < |s|
    ensures r.Ok? && depth <= CJSON_NESTING_LIMIT ==> depth + Height(r.value.1) <= CJSON_NESTING_LIMIT
    decreases |s|, 3
  {
    var name := ParseName(s);
    if name.Fail? then Fail(name.rest)
    else
      var v := ParseValue(name.rest, depth);
      if v.Ok? then Ok((name.value, v.value), v.rest) else Fail(v.rest)
  }

  function ParseMembers(s: string, depth: nat): (r: Result<Members>)
    requires s != ""
    ensures r.Ok? ==> |r.rest| < |s|
    ensures r.Ok? && depth <= CJSON_NESTING_LIMIT ==> depth + HeightOfMembers(r.value) <= CJSON_NESTING_LIMIT
    decreases |s|, 4
  {
    var m := ParseMember(s, depth);
    if m.Fail? then Fail(m.rest)
    else
      var s2 := SkipWhitespace(m.rest);
      if s2 != "" && s2[0] == ',' then
        if |s2| == 1 then Fail(s2)
        else
          var r := ParseMembers(s2[1..], depth);
          if r.Ok? then Ok(Member(m.value.0, m.value.1, r.value), r.rest) else r
      else if s2 != "" && s2[0] == '}' then Ok(Member(m.value.0, m.value.1, NoMembers), s2[1..])
      else Fail(s2)
  }

  // ------------------------------------------------------------------ whole texts

  const BOM: string := [0xEF as char, 0xBB as char, 0xBF as char]

  function SkipBom(s: string): string {
    if |s| > 4 && BOM <= s then s[3..] else s
  }

  /** cJSON_ParseWithLengthOpts; the rest is where *return_parse_end points, if inside the text. */
  function ParseText(s: string, requireNullTerminated: bool): (r: Result<Json>)
    ensures r.Ok? && requireNullTerminated ==> r.rest != "" && r.rest[0] == NUL
  {
    if s == "" then Fail(s)
    else
      var r := ParseValue(SkipWhitespace(SkipBom(s)), 0);
      if r.Fail? || !requireNullTerminated then r
      else
        var s2 := SkipWhitespace(r.rest);
        if s2 == "" || s2[0] != NUL then Fail(s2) else Ok(r.value, s2)
  }
}
