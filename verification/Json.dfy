/** JSON trees and their text, as cJSON prints it (packages/cjson/cJSON.c).  A byte is a char here; what
    is proved holds for every char, so for the bytes among them. */
module Json {
  /** The children of an array or object are the nodes along its next chain. */
  datatype Json =
    | Null
    | False
    | True
    | Number(value: real)
    | String(text: string)
    | Array(elems: Elems)
    | Object(members: Members)

  datatype Elems = NoElems | Elem(head: Json, tail: Elems)

  datatype Members = NoMembers | Member(key: string, value: Json, rest: Members)

  const NUL: char := '\0'
  const INT_MAX: int := 0x7FFF_FFFF
  const INT_MIN: int := -0x8000_0000

  /** A number that print_number prints as an integer: it equals itself truncated and saturated to 32 bits. */
  predicate IsInt32(d: real) {
    d == d.Floor as real && INT_MIN <= d.Floor <= INT_MAX
  }

  /** A C string does not contain its terminator. */
  predicate IsCString(s: string) {
    forall i :: 0 <= i < |s| ==> s[i] != NUL
  }

  /** The trees whose text is modelled: their numbers are 32-bit integers. */
  predicate Printable(j: Json) {
    match j
    case Number(d) => IsInt32(d)
    case String(s) => IsCString(s)
    case Array(elems) => PrintableElems(elems)
    case Object(members) => PrintableMembers(members)
    case _ => true
  }

  predicate PrintableElems(elems: Elems) {
    elems.Elem? ==> Printable(elems.head) && PrintableElems(elems.tail)
  }

  predicate PrintableMembers(members: Members) {
    members.Member? ==> IsCString(members.key) && Printable(members.value) && PrintableMembers(members.rest)
  }

  function Max(a: nat, b: nat): nat {
    if a < b then b else a
  }

  /** How deeply arrays and objects are nested. */
  function Height(j: Json): nat {
    match j
    case Array(elems) => 1 + HeightOfElems(elems)
    case Object(members) => 1 + HeightOfMembers(members)
    case _ => 0
  }

  function HeightOfElems(elems: Elems): nat {
    if elems.NoElems? then 0 else Max(Height(elems.head), HeightOfElems(elems.tail))
  }

  function HeightOfMembers(members: Members): nat {
    if members.NoMembers? then 0 else Max(Height(members.value), HeightOfMembers(members.rest))
  }

  // -------------------------------------------------------------------- the text

  function DigitChar(d: nat): (c: char)
    requires d < 16
    ensures c != NUL && c != '"' && c != '\\'
  {
    if d < 10 then '0' + d as char else 'a' + (d - 10) as char
  }

  function Digits(n: nat): (s: string)
    ensures s != [] && IsCString(s)
  {
    if n < 10 then [DigitChar(n)] else Digits(n / 10) + [DigitChar(n % 10)]
  }

  /** %d */
  function Decimal(i: int): (s: string)
    ensures s != [] && IsCString(s)
  {
    if i < 0 then "-" + Digits(-i) else Digits(i)
  }

  function Escaped(c: char): (s: string)
    ensures s != [] && (c != NUL ==> IsCString(s))
  {
    if c == '"' then "\\\""
    else if c == '\\' then "\\\\"
    else if c == 8 as char then "\\b"
    else if c == 12 as char then "\\f"
    else if c == '\n' then "\\n"
    else if c == '\r' then "\\r"
    else if c == '\t' then "\\t"
    else if c as nat < 32 then "\\u00" + [DigitChar(c as nat / 16), DigitChar(c as nat % 16)]
    else [c]
  }

  function Escapes(s: string): (r: string)
    ensures IsCString(s) ==> IsCString(r)
    ensures |r| >= |s|
  {
    if s == "" then "" else Escaped(s[0]) + Escapes(s[1..])
  }

  function Quoted(s: string): string {
    "\"" + Escapes(s) + "\""
  }

  function Tabs(n: nat): string {
    seq(n, _ => '\t')
  }

  /** Text that only a formatted print contains. */
  function If(format: bool, s: string): string {
    if format then s else ""
  }

  /** The text of a tree, printed at a depth of nesting. */
  function Text(j: Json, format: bool, depth: nat): string {
    match j
    case Null => "null"
    case False => "false"
    case True => "true"
    case Number(d) => Decimal(d.Floor)
    case String(s) => Quoted(s)
    case Array(elems) => "[" + TextOfElems(elems, format, depth + 1) + "]"
    case Object(members) =>
      Brace(format) + TextOfMembers(members, format, depth + 1) + ClosingBrace(format, depth)
  }

  function Brace(format: bool): (r: string)
    ensures IsCString(r)
  {
    if format then "{\n" else "{"
  }

  function ClosingBrace(format: bool, depth: nat): (r: string)
    ensures IsCString(r) && |r| > 0
  {
    If(format, Tabs(depth)) + "}"
  }

  function TextOfElems(elems: Elems, format: bool, depth: nat): string {
    if elems.NoElems? then ""
    else Text(elems.head, format, depth) + Comma(elems.tail, format) + TextOfElems(elems.tail, format, depth)
  }

  function Comma(tail: Elems, format: bool): string {
    if tail.NoElems? then "" else if format then ", " else ","
  }

  function TextOfMembers(members: Members, format: bool, depth: nat): string {
    if members.NoMembers? then ""
    else
      Line(members.key, Text(members.value, format, depth), members.rest.NoMembers?, format, depth)
      + TextOfMembers(members.rest, format, depth)
  }

  /** A member, from its key to what separates it from the next. */
  function Line(key: string, text: string, last: bool, format: bool, depth: nat): (r: string)
    ensures IsCString(key) && IsCString(text) ==> IsCString(r)
  {
    If(format, Tabs(depth)) + Quoted(key) + Colon(format) + text + EndOfLine(last, format)
  }

  function Colon(format: bool): (r: string)
    ensures IsCString(r)
  {
    if format then ":\t" else ":"
  }

  function EndOfLine(last: bool, format: bool): (r: string)
    ensures IsCString(r)
  {
    (if last then "" else ",") + If(format, "\n")
  }

  /** The layout of a formatted print: each member is a line of its own, behind as many tabs as its depth, with a tab
      behind the colon; the closing brace, too, begins a line; unformatted, there is no blank. */
  lemma LayoutOfLine(key: string, text: string, last: bool, depth: nat)
    ensures |Tabs(depth)| == depth && forall i :: 0 <= i < depth ==> Tabs(depth)[i] == '\t'
    ensures Line(key, text, last, true, depth) == Tabs(depth) + Quoted(key) + ":\t" + text + ((if last then "" else ",") + "\n")
    ensures Line(key, text, last, false, depth) == Quoted(key) + ":" + text + if last then "" else ","
    ensures Brace(true) == "{\n" && ClosingBrace(true, depth) == Tabs(depth) + "}"
    ensures Brace(false) == "{" && ClosingBrace(false, depth) == "}"
  {
    assert (if last then "" else ",") + "" == if last then "" else ",";
    assert "" + Quoted(key) == Quoted(key) && "" + "}" == "}";
  }

  /** The elements of an array stand in one line. */
  lemma LayoutOfPair(a: Json, b: Json, format: bool, depth: nat)
    ensures
      Text(Array(Elem(a, Elem(b, NoElems))), format, depth) ==
      "[" + (Text(a, format, depth + 1) + (if format then ", " else ",") + Text(b, format, depth + 1)) + "]"
  {
    var rest := Elem(b, NoElems);
    assert TextOfElems(rest, format, depth + 1) == Text(b, format, depth + 1);
  }

  // ------------------------------------------------------- the text is a C string

  lemma {:induction false} TextIsCString(j: Json, format: bool, depth: nat)
    requires Printable(j)
    ensures IsCString(Text(j, format, depth)) && Text(j, format, depth) != []
  {
    match j
    case Array(elems) => TextOfElemsIsCString(elems, format, depth + 1);
    case Object(members) => TextOfMembersIsCString(members, format, depth + 1);
    case _ =>
  }

  lemma {:induction false} TextOfElemsIsCString(elems: Elems, format: bool, depth: nat)
    requires PrintableElems(elems)
    ensures IsCString(TextOfElems(elems, format, depth))
  {
    if elems.Elem? {
      TextIsCString(elems.head, format, depth);
      TextOfElemsIsCString(elems.tail, format, depth);
    }
  }

  lemma {:induction false} TextOfMembersIsCString(members: Members, format: bool, depth: nat)
    requires PrintableMembers(members)
    ensures IsCString(TextOfMembers(members, format, depth))
  {
    if members.Member? {
      TextIsCString(members.value, format, depth);
      TextOfMembersIsCString(members.rest, format, depth);
    }
  }

  /** A 32-bit integer fits the number buffer of print_number, 26 bytes with the terminator. */
  lemma {:induction false} DigitsAreFew(n: nat, k: nat)
    requires n < Power10(k) && k > 0
    ensures |Digits(n)| <= k
  {
    if n >= 10 {
      DigitsAreFew(n / 10, k - 1);
    }
  }

  function Power10(k: nat): nat {
    if k == 0 then 1 else 10 * Power10(k - 1)
  }

  lemma DecimalFits(i: int)
    requires INT_MIN <= i <= INT_MAX
    ensures |Decimal(i)| <= 11
  {
    assert Power10(10) == 100_0000_0000 by {
      assert Power10(5) == 10_0000;
    }
    DigitsAreFew(if i < 0 then -i else i, 10);
  }
}
