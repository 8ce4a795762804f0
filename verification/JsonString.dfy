/** JSON strings as parse_string reads them (packages/cjson/cJSON.c:634-919), and the UTF-8 it writes for
    a \u escape.  RFC 8259 section 7, RFC 3629 section 3, RFC 2781 section 2.2. */
module JsonString {
  import opened Json

  /** What a parser returns: what it read and what is left, or where it stopped. */
  datatype Result<T> = Ok(value: T, rest: string) | Fail(rest: string)

  // ------------------------------------------------------------------- characters

  predicate IsHex(c: char) {
    '0' <= c <= '9' || 'A' <= c <= 'F' || 'a' <= c <= 'f'
  }

  function HexValue(c: char): (h: nat)
    requires IsHex(c)
    ensures h < 16
  {
    if c <= '9' then c as nat - '0' as nat
    else if c <= 'F' then 10 + c as nat - 'A' as nat
    else 10 + c as nat - 'a' as nat
  }

  /** parse_hex4; digits that are not hexadecimal read as 0. */
  function Hex4(s: string): (h: nat)
    requires |s| == 4
    ensures h < 0x1_0000
  {
    if IsHex(s[0]) && IsHex(s[1]) && IsHex(s[2]) && IsHex(s[3]) then
      ((HexValue(s[0]) * 16 + HexValue(s[1])) * 16 + HexValue(s[2])) * 16 + HexValue(s[3])
    else 0
  }

  predicate IsHigh(u: nat) {
    0xD800 <= u <= 0xDBFF
  }

  predicate IsLow(u: nat) {
    0xDC00 <= u <= 0xDFFF
  }

  /** A Unicode scalar value */
  predicate IsScalar(cp: nat) {
    cp <= 0x10FFFF && !IsHigh(cp) && !IsLow(cp)
  }

  function FromPair(high: nat, low: nat): nat
    requires IsHigh(high) && IsLow(low)
  {
    0x10000 + high % 0x400 * 0x400 + low % 0x400
  }

  function Utf8(cp: nat): (bytes: string)
    requires cp <= 0x10FFFF
    ensures 1 <= |bytes| <= 4
  {
    if cp < 0x80 then [cp as char]
    else if cp < 0x800 then [Lead(0xC0, cp / 64), Trail(cp)]
    else if cp < 0x1_0000 then [Lead(0xE0, cp / 64 / 64), Trail(cp / 64), Trail(cp)]
    else [Lead(0xF0, cp / 64 / 64 / 64), Trail(cp / 64 / 64), Trail(cp / 64), Trail(cp)]
  }

  function Lead(mark: nat, bits: nat): (c: char)
    requires mark <= 0xF0 && bits < 32
    ensures c as nat == mark + bits
  {
    (mark + bits) as char
  }

  function Trail(bits: nat): (c: char)
    ensures c as nat == 0x80 + bits % 64
  {
    (0x80 + bits % 64) as char
  }

  // ---------------------------------------------------------------- \u escapes

  datatype Code = NoCode | Code(codepoint: nat, length: nat)

  /** The escape at p of a string that ends before end: a code unit of its own, or a surrogate pair. */
  function Literal(s: string, p: nat, end: nat): (r: Code)
    requires p <= end <= |s|
    ensures r.Code? ==> IsScalar(r.codepoint) && p + r.length <= end
    ensures r.Code? ==> (r.length == 6 && |Utf8(r.codepoint)| <= 3) || r.length == 12
  {
    if end - p < 6 then NoCode
    else
      var first := Hex4(s[p + 2..p + 6]);
      if IsLow(first) then NoCode
      else if !IsHigh(first) then Code(first, 6)
      else if end - p < 12 || s[p + 6] != '\\' || s[p + 7] != 'u' then NoCode
      else
        var second := Hex4(s[p + 8..p + 12]);
        if IsLow(second) then Code(FromPair(first, second), 12) else NoCode
  }

  // -------------------------------------------------------------------- strings

  /** The counting pass: where the string that continues at i is closed. */
  function Close(s: string, i: nat): (k: int)
    ensures k == -1 || (i <= k < |s| && s[k] == '"')
    decreases |s| - i
  {
    if i >= |s| then -1
    else if s[i] == '"' then i
    else if s[i] == '\\' then if i + 1 >= |s| then -1 else Close(s, i + 2)
    else Close(s, i + 1)
  }

  function Prepend(bytes: string, r: Result<string>): Result<string> {
    if r.Ok? then Ok(bytes + r.value, r.rest) else r
  }

  /** The byte a two-character escape stands for. */
  function Unescape(c: char): (r: string)
    ensures |r| <= 1
  {
    if c == 'b' then [8 as char]
    else if c == 'f' then [12 as char]
    else if c == 'n' then "\n"
    else if c == 'r' then "\r"
    else if c == 't' then "\t"
    else if c == '"' || c == '\\' || c == '/' then [c]
    else ""
  }

  /** One turn of the decoding pass: the bytes it writes, and how far it goes; 0 if it fails. */
  datatype Turn = Turn(bytes: string, step: nat)

  function DecodeOne(s: string, p: nat, k: nat): (r: Turn)
    requires p < k < |s|
    ensures r.step > 0 ==> |r.bytes| > 0
  {
    if s[p] != '\\' then Turn([s[p]], 1)
    else if s[p + 1] == 'u' then
      var code := Literal(s, p, k);
      if code.NoCode? then Turn("", 0) else Turn(Utf8(code.codepoint), code.length)
    else Turn(Unescape(s[p + 1]), if Unescape(s[p + 1]) == "" then 0 else 2)
  }

  /** The decoding pass from p on, over a string closed at k. */
  function Decode(s: string, p: nat, k: nat): (r: Result<string>)
    requires k < |s|
    ensures r.Ok? ==> r.rest == s[k + 1..]
    decreases k - p
  {
    if p >= k then Ok("", s[k + 1..])
    else
      var turn := DecodeOne(s, p, k);
      if turn.step == 0 then Fail(s[p..]) else Prepend(turn.bytes, Decode(s, p + turn.step, k))
  }

  /** The C string that bytes followed by a terminator hold. */
  function CString(bytes: string): (r: string)
    ensures IsCString(r) && r <= bytes
    ensures IsCString(bytes) ==> r == bytes
  {
    if bytes == "" || bytes[0] == NUL then "" else [bytes[0]] + CString(bytes[1..])
  }

  function ParseString(s: string): (r: Result<string>)
    requires s != ""
    ensures r.Ok? ==> |r.rest| < |s| && IsCString(r.value)
  {
    if s[0] != '"' then Fail(s[1..])
    else if Close(s, 1) == -1 then Fail(s[1..])
    else
      var r := Decode(s, 1, Close(s, 1));
      if r.Ok? then Ok(CString(r.value), r.rest) else r
  }

  // ------------------------------------------------- the allocation covers the output

  /** The counting pass, which starts at 1, looks at i; it steps over the character behind a backslash. */
  predicate Visited(s: string, i: nat)
    requires 1 <= i <= |s|
  {
    i == 1 || !(Visited(s, i - 1) && s[i - 1] == '\\')
  }

  /** How many bytes it has skipped when it is past everything before i. */
  function Skipped(s: string, i: nat): (n: nat)
    requires 1 <= i <= |s|
    ensures n <= i - 1
  {
    if i == 1 then 0
    else Skipped(s, i - 1) + if Visited(s, i - 1) && s[i - 1] == '\\' then 1 else 0
  }

  /** Of two neighbours at most one is skipped over. */
  lemma SkippedByTwo(s: string, i: nat)
    requires 1 <= i && i + 2 <= |s|
    ensures Skipped(s, i + 2) <= Skipped(s, i) + 1
  {
    assert Skipped(s, i + 2) == Skipped(s, i + 1) + if Visited(s, i + 1) && s[i + 1] == '\\' then 1 else 0;
    assert Skipped(s, i + 1) == Skipped(s, i) + if Visited(s, i) && s[i] == '\\' then 1 else 0;
    assert Visited(s, i) && s[i] == '\\' ==> !Visited(s, i + 1);
  }

  lemma {:induction false} SkippedByMany(s: string, i: nat, pairs: nat)
    requires 1 <= i && i + 2 * pairs <= |s|
    ensures Skipped(s, i + 2 * pairs) <= Skipped(s, i) + pairs
  {
    if pairs > 0 {
      SkippedByMany(s, i, pairs - 1);
      SkippedByTwo(s, i + 2 * (pairs - 1));
    }
  }

  /** allocation_length, for a string closed at k */
  function AllocationLength(s: string, k: nat): nat
    requires 1 <= k <= |s|
  {
    k - Skipped(s, k)
  }

  /** The decoding pass may fall out of step with the counting pass; still, however it got to p, what it
      has written fits, and it passes the closing quote by no more than that quote. */
  ghost predicate InStep(s: string, p: nat, k: nat, written: nat)
    requires k < |s|
  {
    1 <= p <= k + 1 && written <= p - 1 - Skipped(s, p)
  }

  lemma DecodingStaysInStep(s: string, p: nat, k: nat, written: nat)
    requires k < |s| && s[k] == '"' && InStep(s, p, k, written) && p < k
    ensures
      var turn := DecodeOne(s, p, k);
      turn.step > 0 ==> InStep(s, p + turn.step, k, written + |turn.bytes|)
  {
    var turn := DecodeOne(s, p, k);
    if s[p] != '\\' {
      assert Skipped(s, p + 1) == Skipped(s, p);
    } else if s[p + 1] != 'u' {
      SkippedByTwo(s, p);
    } else if turn.step > 0 {
      SkippedByMany(s, p, turn.step / 2);
    }
  }

  /** So it never writes past the allocation_length + 1 bytes, the terminator included. */
  lemma AllocationCovers(s: string, p: nat, k: nat, written: nat)
    requires 1 <= k < |s| && s[k] == '"' && InStep(s, p, k, written)
    ensures written <= AllocationLength(s, k)
  {
    if p <= k {
      SkippedGrows(s, p, k);
    }
  }

  lemma {:induction false} SkippedGrows(s: string, i: nat, j: nat)
    requires 1 <= i <= j <= |s|
    ensures Skipped(s, j) <= Skipped(s, i) + (j - i)
    decreases j
  {
    if i < j {
      SkippedGrows(s, i, j - 1);
    }
  }

  lemma PrependTwice(a: string, b: string, r: Result<string>)
    ensures Prepend(a, Prepend(b, r)) == Prepend(a + b, r) && Prepend("", r) == r
  {
    if r.Ok? {
      assert a + (b + r.value) == a + b + r.value && "" + r.value == r.value;
    }
  }

  /** The decoding pass has come to p and has written out, of all that will be decoded. */
  ghost predicate OnTrack(s: string, p: nat, k: nat, out: string, decoded: Result<string>) {
    && 1 <= k < |s| && s[k] == '"'
    && InStep(s, p, k, |out|)
    && decoded == Prepend(out, Decode(s, p, k))
  }

  /** One turn, then: what it writes is inside the allocation, and it stays on track or fails. */
  lemma TurnIsCovered(s: string, p: nat, k: nat, out: string, decoded: Result<string>)
    requires OnTrack(s, p, k, out, decoded) && p < k
    ensures
      var turn := DecodeOne(s, p, k);
      && (turn.step == 0 ==> decoded == Fail(s[p..]))
      && (turn.step > 0 ==> OnTrack(s, p + turn.step, k, out + turn.bytes, decoded))
      && (turn.step > 0 ==> |out| + |turn.bytes| <= AllocationLength(s, k))
  {
    DecodingStaysInStep(s, p, k, |out|);
    var turn := DecodeOne(s, p, k);
    if turn.step > 0 {
      AllocationCovers(s, p + turn.step, k, |out| + |turn.bytes|);
      PrependTwice(out, turn.bytes, Decode(s, p + turn.step, k));
    }
  }

  lemma TrackBegins(s: string, k: nat)
    requires 1 <= k < |s| && s[k] == '"'
    ensures OnTrack(s, 1, k, "", Decode(s, 1, k))
  {
    PrependTwice("", "", Decode(s, 1, k));
  }

  lemma TrackEnds(s: string, p: nat, k: nat, out: string, decoded: Result<string>)
    requires OnTrack(s, p, k, out, decoded) && p >= k
    ensures decoded == Ok(out, s[k + 1..]) && p <= k + 1 && |out| <= AllocationLength(s, k)
  {
    AllocationCovers(s, p, k, |out|);
    assert out + "" == out;
  }

  // ------------------------------------------------------- UTF-8 and UTF-16 are right

  predicate IsTrail(c: char) {
    0x80 <= c as nat < 0xC0
  }

  function Bits(c: char): (b: nat)
    requires IsTrail(c)
    ensures b < 64
  {
    c as nat - 0x80
  }

  /** Reading UTF-8: the character at the start of bytes, by the table of RFC 3629 section 4, or -1. */
  function FromUtf8(bytes: string): int {
    if bytes == "" then -1
    else
      var lead := bytes[0] as nat;
      if lead < 0x80 then lead
      else if 0xC2 <= lead < 0xE0 && |bytes| >= 2 then Joined(lead - 0xC0, bytes[1..2], 0x80)
      else if 0xE0 <= lead < 0xF0 && |bytes| >= 3 then Joined(lead - 0xE0, bytes[1..3], 0x800)
      else if 0xF0 <= lead < 0xF5 && |bytes| >= 4 then Joined(lead - 0xF0, bytes[1..4], 0x1_0000)
      else -1
  }

  /** The bits of the first byte followed by those of the trailing ones, unless fewer bytes would do. */
  function Joined(bits: nat, trail: string, least: nat): int {
    if forall i :: 0 <= i < |trail| ==> IsTrail(trail[i]) then
      var cp := Join(bits, trail);
      if cp >= least && IsScalar(cp) then cp else -1
    else -1
  }

  function Join(bits: nat, trail: string): nat
    requires forall i :: 0 <= i < |trail| ==> IsTrail(trail[i])
  {
    if trail == "" then bits
    else Join(bits, trail[..|trail| - 1]) * 64 + Bits(trail[|trail| - 1])
  }

  lemma JoinThree(bits: nat, a: char, b: char, c: char)
    requires IsTrail(a) && IsTrail(b) && IsTrail(c)
    ensures Join(bits, [a]) == bits * 64 + Bits(a)
    ensures Join(bits, [a, b]) == (bits * 64 + Bits(a)) * 64 + Bits(b)
    ensures Join(bits, [a, b, c]) == ((bits * 64 + Bits(a)) * 64 + Bits(b)) * 64 + Bits(c)
  {
    assert [a][..0] == "" && [a, b][..1] == [a] && [a, b, c][..2] == [a, b];
  }

  /** What is written for a character reads back as it, whatever follows. */
  lemma Utf8IsRead(cp: nat, post: string)
    requires IsScalar(cp)
    ensures FromUtf8(Utf8(cp) + post) == cp
  {
    var bytes := Utf8(cp) + post;
    if cp < 0x80 {
    } else if cp < 0x800 {
      JoinThree(cp / 64, Trail(cp), Trail(cp), Trail(cp));
      assert bytes[1..2] == [Trail(cp)];
    } else if cp < 0x1_0000 {
      JoinThree(cp / 64 / 64, Trail(cp / 64), Trail(cp), Trail(cp));
      assert bytes[1..3] == [Trail(cp / 64), Trail(cp)];
    } else {
      JoinThree(cp / 64 / 64 / 64, Trail(cp / 64 / 64), Trail(cp / 64), Trail(cp));
      assert bytes[1..4] == [Trail(cp / 64 / 64), Trail(cp / 64), Trail(cp)];
    }
  }

  lemma Split64(q: nat, r: nat)
    requires r < 64
    ensures (q * 64 + r) / 64 == q && (q * 64 + r) % 64 == r
  {
  }

  /** And no other bytes read as it. */
  lemma Utf8IsCanonical(bytes: string)
    requires FromUtf8(bytes) != -1
    ensures IsScalar(FromUtf8(bytes)) && Utf8(FromUtf8(bytes)) <= bytes
  {
    var lead := bytes[0] as nat;
    if lead < 0x80 {
    } else if lead < 0xE0 {
      TwoAreCanonical(bytes);
    } else if lead < 0xF0 {
      ThreeAreCanonical(bytes);
    } else {
      FourAreCanonical(bytes);
    }
  }

  lemma TwoAreCanonical(bytes: string)
    requires FromUtf8(bytes) != -1 && 0x80 <= bytes[0] as nat < 0xE0
    ensures Utf8(FromUtf8(bytes)) <= bytes
  {
    var trail, bits := bytes[1..2], bytes[0] as nat - 0xC0;
    assert trail == [bytes[1]] && IsTrail(trail[0]);
    JoinThree(bits, bytes[1], bytes[1], bytes[1]);
    Split64(bits, Bits(bytes[1]));
    assert Trail(FromUtf8(bytes)) == bytes[1];
  }

  lemma ThreeAreCanonical(bytes: string)
    requires FromUtf8(bytes) != -1 && 0xE0 <= bytes[0] as nat < 0xF0
    ensures Utf8(FromUtf8(bytes)) <= bytes
  {
    var trail, bits := bytes[1..3], bytes[0] as nat - 0xE0;
    assert trail == [bytes[1], bytes[2]] && IsTrail(trail[0]) && IsTrail(trail[1]);
    JoinThree(bits, bytes[1], bytes[2], bytes[2]);
    var cp, high := FromUtf8(bytes), bits * 64 + Bits(bytes[1]);
    assert cp == high * 64 + Bits(bytes[2]);
    Split64(high, Bits(bytes[2]));
    Split64(bits, Bits(bytes[1]));
    assert Trail(cp) == bytes[2] && Trail(cp / 64) == bytes[1];
  }

  lemma Unjoin(bits: nat, a: nat, b: nat, c: nat)
    requires a < 64 && b < 64 && c < 64
    ensures
      var cp := ((bits * 64 + a) * 64 + b) * 64 + c;
      && cp % 64 == c && cp / 64 % 64 == b && cp / 64 / 64 % 64 == a && cp / 64 / 64 / 64 == bits
  {
    Split64((bits * 64 + a) * 64 + b, c);
    Split64(bits * 64 + a, b);
    Split64(bits, a);
  }

  lemma FourAreCanonical(bytes: string)
    requires FromUtf8(bytes) != -1 && 0xF0 <= bytes[0] as nat
    ensures Utf8(FromUtf8(bytes)) <= bytes
  {
    var trail, bits := bytes[1..4], bytes[0] as nat - 0xF0;
    assert trail == [bytes[1], bytes[2], bytes[3]] && IsTrail(trail[0]) && IsTrail(trail[1]) && IsTrail(trail[2]);
    JoinThree(bits, bytes[1], bytes[2], bytes[3]);
    Unjoin(bits, Bits(bytes[1]), Bits(bytes[2]), Bits(bytes[3]));
    assert Trail(FromUtf8(bytes)) == bytes[3];
  }

  function HexDigit(d: nat, upper: bool): (c: char)
    requires d < 16
    ensures IsHex(c) && HexValue(c) == d
  {
    if d < 10 then '0' + d as char else if upper then 'A' + (d - 10) as char else 'a' + (d - 10) as char
  }

  /** \uXXXX, each digit in either case */
  function Unit(u: nat, upper: seq<bool>): (s: string)
    requires u < 0x1_0000 && |upper| == 4
    ensures |s| == 6 && s[0] == '\\' && s[1] == 'u' && Hex4(s[2..6]) == u
  {
    var digits := [HexDigit(u / 16 / 16 / 16, upper[0]), HexDigit(u / 16 / 16 % 16, upper[1]),
                   HexDigit(u / 16 % 16, upper[2]), HexDigit(u % 16, upper[3])];
    assert Hex4(digits) == u;
    assert ("\\u" + digits)[2..6] == digits;
    "\\u" + digits
  }

  /** How RFC 8259 escapes a character: one unit, or a surrogate pair beyond the basic plane. */
  function EscapeOf(cp: nat, upper: seq<bool>): (s: string)
    requires IsScalar(cp) && |upper| == 8
  {
    if cp < 0x1_0000 then Unit(cp, upper[..4])
    else
      Unit(0xD800 + (cp - 0x1_0000) / 0x400, upper[..4]) + Unit(0xDC00 + (cp - 0x1_0000) % 0x400, upper[4..])
  }

  /** The string s reads w at p. */
  predicate At(s: string, p: nat, w: string) {
    p + |w| <= |s| && s[p..p + |w|] == w
  }

  lemma AtSplits(s: string, p: nat, a: string, b: string)
    requires At(s, p, a + b)
    ensures At(s, p, a) && At(s, p + |a|, b)
  {
    assert s[p..p + |a|] == s[p..p + |a + b|][..|a|];
    assert s[p + |a|..p + |a| + |b|] == s[p..p + |a + b|][|a|..];
  }

  lemma AtIndex(s: string, p: nat, w: string, i: nat)
    requires At(s, p, w) && i < |w|
    ensures s[p + i] == w[i]
  {
    assert s[p..p + |w|][i] == w[i];
  }

  /** The escape that starts at p reads as u. */
  lemma UnitAt(s: string, p: nat, u: nat, upper: seq<bool>)
    requires u < 0x1_0000 && |upper| == 4 && At(s, p, Unit(u, upper))
    ensures s[p] == '\\' && s[p + 1] == 'u' && Hex4(s[p + 2..p + 6]) == u
  {
    AtIndex(s, p, Unit(u, upper), 0);
    AtIndex(s, p, Unit(u, upper), 1);
    assert s[p + 2..p + 6] == s[p..p + 6][2..6];
  }

  /** Every character's escape is decoded to that character. */
  lemma EscapesAreDecoded(cp: nat, upper: seq<bool>, s: string, p: nat, end: nat)
    requires IsScalar(cp) && |upper| == 8
    requires At(s, p, EscapeOf(cp, upper)) && p + |EscapeOf(cp, upper)| <= end <= |s|
    ensures Literal(s, p, end) == Code(cp, |EscapeOf(cp, upper)|)
  {
    if cp < 0x1_0000 {
      UnitAt(s, p, cp, upper[..4]);
    } else {
      var high, low := 0xD800 + (cp - 0x1_0000) / 0x400, 0xDC00 + (cp - 0x1_0000) % 0x400;
      PairRoundTrip(cp);
      PairIsDecoded(high, low, upper[..4], upper[4..], s, p, end);
    }
  }

  lemma PairIsDecoded(high: nat, low: nat, upper: seq<bool>, upper': seq<bool>, s: string, p: nat, end: nat)
    requires IsHigh(high) && IsLow(low) && |upper| == |upper'| == 4
    requires At(s, p, Unit(high, upper) + Unit(low, upper')) && p + 12 <= end <= |s|
    ensures Literal(s, p, end) == Code(FromPair(high, low), 12)
  {
    AtSplits(s, p, Unit(high, upper), Unit(low, upper'));
    UnitAt(s, p, high, upper);
    UnitAt(s, p + 6, low, upper');
  }

  lemma PairRoundTrip(cp: nat)
    requires 0x1_0000 <= cp <= 0x10FFFF
    ensures
      var high, low := 0xD800 + (cp - 0x1_0000) / 0x400, 0xDC00 + (cp - 0x1_0000) % 0x400;
      IsHigh(high) && IsLow(low) && FromPair(high, low) == cp
  {
    assert 0xD800 % 0x400 == 0 && 0xDC00 % 0x400 == 0;
  }

  /** A lone surrogate is refused. */
  lemma LoneSurrogatesAreRefused(u: nat, upper: seq<bool>, s: string, p: nat, end: nat)
    requires (IsHigh(u) || IsLow(u)) && |upper| == 4
    requires At(s, p, Unit(u, upper)) && p + 6 <= end <= |s|
    requires IsHigh(u) && p + 12 <= end && At(s, p + 6, "\\u") ==> !IsLow(Hex4(s[p + 8..p + 12]))
    ensures Literal(s, p, end) == NoCode
  {
    UnitAt(s, p, u, upper);
  }

  // --------------------------------------------------- what is printed is read back

  lemma EscapedIsDecoded(s: string, p: nat, c: char, k: nat)
    requires c != NUL && At(s, p, Escaped(c)) && p + |Escaped(c)| <= k < |s|
    ensures DecodeOne(s, p, k) == Turn([c], |Escaped(c)|)
  {
    AtIndex(s, p, Escaped(c), 0);
    if |Escaped(c)| > 1 {
      AtIndex(s, p, Escaped(c), 1);
      if s[p + 1] == 'u' {
        assert s[p + 2..p + 6] == s[p..p + 6][2..6];
        assert Hex4(Escaped(c)[2..6]) == c as nat;
      }
    }
  }

  lemma EscapedIsNoClose(s: string, p: nat, c: char)
    requires c != NUL && At(s, p, Escaped(c))
    ensures Close(s, p) == Close(s, p + |Escaped(c)|)
  {
    AtIndex(s, p, Escaped(c), 0);
    if |Escaped(c)| == 2 {
      AtIndex(s, p, Escaped(c), 1);
    } else if |Escaped(c)| == 6 {
      AtIndex(s, p, Escaped(c), 1);
      assert Close(s, p) == Close(s, p + 2);
      PlainPasses(s, p, Escaped(c), 2);
      PlainPasses(s, p, Escaped(c), 3);
      PlainPasses(s, p, Escaped(c), 4);
      PlainPasses(s, p, Escaped(c), 5);
    }
  }

  lemma PlainPasses(s: string, p: nat, w: string, i: nat)
    requires At(s, p, w) && i < |w| && w[i] != '"' && w[i] != '\\'
    ensures Close(s, p + i) == Close(s, p + i + 1)
  {
    AtIndex(s, p, w, i);
  }

  lemma {:induction false} EscapesAreClosed(s: string, p: nat, t: string, k: nat)
    requires IsCString(t) && At(s, p, Escapes(t)) && k == p + |Escapes(t)| && At(s, k, "\"")
    ensures Close(s, p) == k
    decreases |t|
  {
    if t == "" {
      AtIndex(s, p, "\"", 0);
    } else {
      var q := p + |Escaped(t[0])|;
      AtSplits(s, p, Escaped(t[0]), Escapes(t[1..]));
      EscapedIsNoClose(s, p, t[0]);
      assert Close(s, p) == Close(s, q);
      EscapesAreClosed(s, q, t[1..], k);
    }
  }

  lemma FirstAndRest(t: string)
    requires t != ""
    ensures [t[0]] + t[1..] == t
  {
  }

  /** One turn that decodes c, and all the others, which decode t */
  lemma TurnThenRest(s: string, p: nat, k: nat, c: char, n: nat, t: string, rest: string)
    requires p < k < |s| && n > 0 && DecodeOne(s, p, k) == Turn([c], n) && Decode(s, p + n, k) == Ok(t, rest)
    ensures Decode(s, p, k) == Ok([c] + t, rest)
  {
  }

  lemma {:induction false} EscapesAreRead(s: string, p: nat, t: string, k: nat)
    requires IsCString(t) && At(s, p, Escapes(t)) && k == p + |Escapes(t)| < |s|
    ensures Decode(s, p, k) == Ok(t, s[k + 1..])
    decreases |t|
  {
    if t != "" {
      var c := Escaped(t[0]);
      AtSplits(s, p, c, Escapes(t[1..]));
      EscapedIsDecoded(s, p, t[0], k);
      EscapesAreRead(s, p + |c|, t[1..], k);
      TurnThenRest(s, p, k, t[0], |c|, t[1..], s[k + 1..]);
      FirstAndRest(t);
    }
  }

  /** A printed string is read back, up to its closing quote. */
  lemma QuotedIsRead(t: string, post: string)
    requires IsCString(t)
    ensures ParseString(Quoted(t) + post) == Ok(t, post)
  {
    var s := Quoted(t) + post;
    assert s[1..1 + |Escapes(t) + "\""|] == Escapes(t) + "\"";
    AtSplits(s, 1, Escapes(t), "\"");
    EscapesAreClosed(s, 1, t, 1 + |Escapes(t)|);
    EscapesAreRead(s, 1, t, 1 + |Escapes(t)|);
    assert s[|Quoted(t)|..] == post;
  }
}
