/** What strings in quotes stand for, after RFC 8259 section 7, said without the parser, and that the parser reads them
    as that (packages/cjson/cJSON.c:634-919).  It differs from RFC 8259 in this: any character but a quote and a
    backslash is plain, a string ends at a NUL that it contains, and a \u that four hexadecimal digits do not follow is
    accepted. */
module StringGrammar {
  import opened Json
  import opened JsonString

  /** What a string is made of: a character for itself, \ and a letter, one \u escape, or two for one character */
  datatype Glyph = Plain(c: char) | Short(c: char) | Long(digits: string) | Pair(high: string, low: string)

  function Spelling(g: Glyph): string {
    match g
    case Plain(c) => [c]
    case Short(c) => "\\" + [c]
    case Long(digits) => "\\u" + digits
    case Pair(high, low) => "\\u" + high + "\\u" + low
  }

  predicate FourHex(digits: string) {
    |digits| == 4 && forall i :: 0 <= i < 4 ==> IsHex(digits[i])
  }

  /** RFC 8259 section 7: no quote and no backslash is plain, and each \u stands for a character, alone or in a
      surrogate pair. */
  predicate Proper(g: Glyph) {
    match g
    case Plain(c) => c != '"' && c != '\\'
    case Short(c) => c == '"' || c == '\\' || c == '/' || c == 'b' || c == 'f' || c == 'n' || c == 'r' || c == 't'
    case Long(digits) => FourHex(digits) && IsScalar(Hex4(digits))
    case Pair(high, low) => FourHex(high) && FourHex(low) && IsHigh(Hex4(high)) && IsLow(Hex4(low))
  }

  function Meant(g: Glyph): string
    requires Proper(g)
  {
    match g
    case Plain(c) => [c]
    case Short(c) =>
      if c == 'b' then [8 as char] else if c == 'f' then [12 as char] else if c == 'n' then [10 as char]
      else if c == 'r' then [13 as char] else if c == 't' then [9 as char] else [c]
    case Long(digits) => Utf8(Hex4(digits))
    case Pair(high, low) => Utf8(0x10000 + (Hex4(high) - 0xD800) * 0x400 + (Hex4(low) - 0xDC00))
  }

  /** w is the spelling of a glyph that means v. */
  ghost predicate Spells(w: string, v: string) {
    exists g :: Proper(g) && w == Spelling(g) && v == Meant(g)
  }

  /** The glyphs of a string, each by its spelling and its meaning */
  datatype Glyphs = NoGlyphs | Glyphs(spelling: string, meaning: string, rest: Glyphs)
  {
    ghost predicate Proper() {
      Glyphs? ==> Spells(spelling, meaning) && rest.Proper()
    }

    function Spelling(): string {
      if NoGlyphs? then "" else spelling + rest.Spelling()
    }

    function Meaning(): string {
      if NoGlyphs? then "" else meaning + rest.Meaning()
    }
  }

  /** t is a string in quotes that stands for v. */
  ghost predicate StringText(t: string, v: string) {
    exists gs: Glyphs :: gs.Proper() && t == "\"" + gs.Spelling() + "\"" && v == CString(gs.Meaning())
  }

  /** t begins like a string, but comes to a \u that four hexadecimal digits do not follow. */
  ghost predicate Misspelled(t: string) {
    exists gs: Glyphs, x ::
      gs.Proper() && |x| == 4 && !FourHex(x) && "\"" + (gs.Spelling() + ("\\u" + x)) <= t
  }

  // ------------------------------------------------- strings: what is accepted

  lemma HexPasses(s: string, p: nat, w: string, i: nat)
    requires At(s, p, w) && i + 4 <= |w| && FourHex(w[i..i + 4])
    ensures Close(s, p + i) == Close(s, p + i + 4)
  {
    assert w[i] == w[i..i + 4][0] && w[i + 1] == w[i..i + 4][1] && w[i + 2] == w[i..i + 4][2] && w[i + 3] == w[i..i + 4][3];
    PlainPasses(s, p, w, i);
    PlainPasses(s, p, w, i + 1);
    PlainPasses(s, p, w, i + 2);
    PlainPasses(s, p, w, i + 3);
  }

  /** A proper glyph is passed as a whole when the closing quote is looked for, */
  lemma GlyphPasses(s: string, p: nat, g: Glyph)
    requires Proper(g) && At(s, p, Spelling(g))
    ensures Close(s, p) == Close(s, p + |Spelling(g)|)
  {
    var w := Spelling(g);
    AtIndex(s, p, w, 0);
    match g
    case Plain(_) =>
    case Short(_) => AtIndex(s, p, w, 1);
    case Long(digits) =>
      AtIndex(s, p, w, 1);
      assert w[2..6] == digits;
      HexPasses(s, p, w, 2);
    case Pair(high, low) =>
      AtIndex(s, p, w, 1);
      AtIndex(s, p, w, 6);
      AtIndex(s, p, w, 7);
      assert w[2..6] == high && w[8..12] == low;
      HexPasses(s, p, w, 2);
      HexPasses(s, p, w, 8);
  }

  lemma ShortIsDecoded(s: string, p: nat, c: char, k: nat)
    requires Proper(Short(c)) && At(s, p, "\\" + [c]) && p + 2 <= k < |s|
    ensures DecodeOne(s, p, k) == Turn(Meant(Short(c)), 2)
  {
    AtIndex(s, p, "\\" + [c], 0);
    AtIndex(s, p, "\\" + [c], 1);
  }

  lemma LongIsDecoded(s: string, p: nat, digits: string, k: nat)
    requires Proper(Long(digits)) && At(s, p, "\\u" + digits) && p + 6 <= k < |s|
    ensures Literal(s, p, k) == Code(Hex4(digits), 6) && s[p] == '\\' && s[p + 1] == 'u'
  {
    assert s[p + 2..p + 6] == s[p..p + 6][2..6] == digits;
    assert s[p..p + 6][0] == '\\' && s[p..p + 6][1] == 'u';
  }

  lemma PairIsDecoded(s: string, p: nat, high: string, low: string, k: nat)
    requires Proper(Pair(high, low)) && At(s, p, "\\u" + high + "\\u" + low) && p + 12 <= k < |s|
    ensures Literal(s, p, k) == Code(FromPair(Hex4(high), Hex4(low)), 12) && s[p] == '\\' && s[p + 1] == 'u'
  {
    var w := s[p..p + 12];
    assert s[p + 2..p + 6] == w[2..6] == high && s[p + 8..p + 12] == w[8..12] == low;
    assert w[0] == '\\' && w[1] == 'u' && w[6] == '\\' && w[7] == 'u';
  }

  /** and decoded to what it means. */
  lemma GlyphIsDecoded(s: string, p: nat, g: Glyph, k: nat)
    requires Proper(g) && At(s, p, Spelling(g)) && p + |Spelling(g)| <= k < |s|
    ensures DecodeOne(s, p, k) == Turn(Meant(g), |Spelling(g)|)
  {
    match g
    case Plain(_) => AtIndex(s, p, Spelling(g), 0);
    case Short(c) => ShortIsDecoded(s, p, c, k);
    case Long(digits) => LongIsDecoded(s, p, digits, k);
    case Pair(high, low) =>
      PairIsDecoded(s, p, high, low, k);
      PairIsSum(Hex4(high), Hex4(low));
  }

  lemma PairIsSum(high: nat, low: nat)
    requires IsHigh(high) && IsLow(low)
    ensures FromPair(high, low) == 0x10000 + (high - 0xD800) * 0x400 + (low - 0xDC00) <= 0x10FFFF
  {
    assert high % 0x400 == high - 0xD800 && low % 0x400 == low - 0xDC00;
  }

  lemma GlyphIsRead(s: string, p: nat, w: string, v: string, k: nat)
    requires Spells(w, v) && At(s, p, w) && p + |w| <= k < |s|
    ensures w != "" && Close(s, p) == Close(s, p + |w|) && DecodeOne(s, p, k) == Turn(v, |w|)
  {
    var g :| Proper(g) && w == Spelling(g) && v == Meant(g);
    GlyphPasses(s, p, g);
    GlyphIsDecoded(s, p, g, k);
  }

  /** One turn that decodes some bytes, up to q, and all the others, which decode t */
  lemma TurnAndRest(s: string, p: nat, q: nat, k: nat, bytes: string, t: string, rest: string)
    requires p < q && p < k < |s| && DecodeOne(s, p, k) == Turn(bytes, q - p) && Decode(s, q, k) == Ok(t, rest)
    ensures Decode(s, p, k) == Ok(bytes + t, rest)
  {
  }

  lemma NothingIsRead(s: string, k: nat)
    requires k < |s| && s[k] == '"'
    ensures Close(s, k) == k && Decode(s, k, k) == Ok("", s[k + 1..])
  {
  }

  lemma GlyphIsReadFirst(s: string, p: nat, w: string, v: string, q: nat, v2: string, k: nat, rest: string)
    requires Spells(w, v) && At(s, p, w) && q == p + |w| <= k < |s| && Decode(s, q, k) == Ok(v2, rest)
    ensures Decode(s, p, k) == Ok(v + v2, rest) && Close(s, p) == Close(s, q)
  {
    GlyphIsRead(s, p, w, v, k);
    TurnAndRest(s, p, q, k, v, v2, rest);
  }

  lemma {:induction false} GlyphsAreRead(s: string, p: nat, gs: Glyphs, k: nat)
    requires gs.Proper() && At(s, p, gs.Spelling()) && k == p + |gs.Spelling()| < |s| && s[k] == '"'
    ensures Close(s, p) == k && Decode(s, p, k) == Ok(gs.Meaning(), s[k + 1..])
    decreases gs
  {
    if gs.NoGlyphs? {
      NothingIsRead(s, k);
    } else {
      var q := p + |gs.spelling|;
      AtSplits(s, p, gs.spelling, gs.rest.Spelling());
      GlyphsAreRead(s, q, gs.rest, k);
      GlyphIsReadFirst(s, p, gs.spelling, gs.meaning, q, gs.rest.Meaning(), k, s[k + 1..]);
    }
  }

  /** A string in quotes is read as what it stands for. */
  lemma StringTextIsRead(t: string, v: string, s: string)
    requires StringText(t, v) && t <= s
    ensures ParseString(s) == Ok(v, s[|t|..]) && t[0] == '"'
  {
    var gs: Glyphs :| gs.Proper() && t == "\"" + gs.Spelling() + "\"" && v == CString(gs.Meaning());
    InQuotes(t, s, gs.Spelling());
    QuotedIsParsed(s, gs, 1 + |gs.Spelling()|);
  }

  lemma QuotedIsParsed(s: string, gs: Glyphs, k: nat)
    requires gs.Proper() && k == 1 + |gs.Spelling()| < |s| && s[0] == '"' == s[k] && At(s, 1, gs.Spelling())
    ensures ParseString(s) == Ok(CString(gs.Meaning()), s[k + 1..])
  {
    GlyphsAreRead(s, 1, gs, k);
  }

  lemma InQuotes(t: string, s: string, w: string)
    requires t == "\"" + w + "\"" && t <= s
    ensures s[0] == '"' && At(s, 1, w) && s[1 + |w|] == '"'
  {
    assert s[1..1 + |w|] == t[1..1 + |w|] == w;
    assert s[1 + |w|] == t[1 + |w|];
  }

  predicate Sloppy(g: Glyph) {
    g.Long? && |g.digits| == 4 && !FourHex(g.digits)
  }

  lemma JoinAt(s: string, p: nat, a: string, b: string)
    requires At(s, p, a) && At(s, p + |a|, b)
    ensures At(s, p, a + b)
  {
  }

  lemma EscapeAt(s: string, p: nat)
    requires p + 6 <= |s| && s[p] == '\\' && s[p + 1] == 'u'
    ensures At(s, p, "\\u" + s[p + 2..p + 6])
  {
    assert s[p..p + 6] == [s[p], s[p + 1]] + s[p + 2..p + 6];
  }

  /** What an escape that is decoded was: a glyph, or a \u that four hexadecimal digits do not follow. */
  lemma LongGlyph(s: string, p: nat, k: nat) returns (g: Glyph)
    requires p < k < |s| && s[p] == '\\' && s[p + 1] == 'u' && Literal(s, p, k).Code?
    ensures (Proper(g) || Sloppy(g)) && At(s, p, Spelling(g)) && p + |Spelling(g)| <= k
    ensures |Spelling(g)| == 6 || |Spelling(g)| == 12
  {
    var digits := s[p + 2..p + 6];
    g := Long(digits);
    EscapeAt(s, p);
    if FourHex(digits) && IsHigh(Hex4(digits)) {
      EscapeAt(s, p + 6);
      g := Pair(digits, s[p + 8..p + 12]);
      JoinAt(s, p, "\\u" + digits, "\\u" + s[p + 8..p + 12]);
      assert "\\u" + digits + "\\u" + s[p + 8..p + 12] == ("\\u" + digits) + ("\\u" + s[p + 8..p + 12]);
    }
  }

  lemma OneGlyph(s: string, p: nat, k: nat) returns (g: Glyph)
    requires p < k < |s| && Close(s, p) == k && DecodeOne(s, p, k).step > 0
    ensures (Proper(g) || Sloppy(g)) && At(s, p, Spelling(g)) && p + |Spelling(g)| <= k
  {
    if s[p] != '\\' {
      g := Plain(s[p]);
    } else if s[p + 1] == 'u' {
      g := LongGlyph(s, p, k);
    } else {
      g := Short(s[p + 1]);
      assert s[p..p + 2] == "\\" + [s[p + 1]];
    }
  }

  /** From p to k, s is spelled with these glyphs; or so it begins, up to a \u that bad follows, which is not four
      hexadecimal digits. */
  ghost predicate Spelled(s: string, p: nat, k: nat, gs: Glyphs, bad: string)
    decreases gs
  {
    if gs.NoGlyphs? then
      if bad == "" then p == k else |bad| == 4 && !FourHex(bad) && At(s, p, "\\u" + bad) && p + 6 <= k
    else
      Spells(gs.spelling, gs.meaning) && At(s, p, gs.spelling) && Spelled(s, p + |gs.spelling|, k, gs.rest, bad)
  }

  lemma {:induction false} SpelledIsProper(s: string, p: nat, k: nat, gs: Glyphs, bad: string)
    requires Spelled(s, p, k, gs, bad)
    ensures gs.Proper()
    decreases gs
  {
    if gs.Glyphs? {
      SpelledIsProper(s, p + |gs.spelling|, k, gs.rest, bad);
    }
  }

  lemma {:induction false} SpelledIsAt(s: string, p: nat, k: nat, gs: Glyphs, bad: string)
    requires Spelled(s, p, k, gs, bad) && p <= |s|
    ensures At(s, p, gs.Spelling()) && Spelled(s, p + |gs.Spelling()|, k, NoGlyphs, bad)
    decreases gs
  {
    if gs.Glyphs? {
      var q: nat := p + |gs.spelling|;
      SpelledIsAt(s, q, k, gs.rest, bad);
      JoinAt(s, p, gs.spelling, gs.rest.Spelling());
    }
  }

  lemma DecodeStarts(s: string, p: nat, k: nat)
    requires p < k < |s| && Decode(s, p, k).Ok?
    ensures DecodeOne(s, p, k).step > 0
  {
  }

  lemma DecodeGoesOn(s: string, p: nat, q: nat, k: nat)
    requires p < k < |s| && p < q == p + DecodeOne(s, p, k).step && Decode(s, p, k).Ok?
    ensures Decode(s, q, k).Ok?
  {
    assert Decode(s, p, k) == Prepend(DecodeOne(s, p, k).bytes, Decode(s, q, k));
  }

  /** The next glyph; or, if it is sloppy, what is there for digits */
  lemma NextGlyph(s: string, p: nat, k: nat) returns (w: string, v: string, bad: string)
    requires p < k < |s| && Close(s, p) == k && DecodeOne(s, p, k).step > 0
    ensures if bad == "" then Spells(w, v) && At(s, p, w) && p + |w| <= k else Spelled(s, p, k, NoGlyphs, bad)
  {
    var g := OneGlyph(s, p, k);
    w, v, bad := Spelling(g), "", "";
    if Sloppy(g) {
      bad := g.digits;
    } else {
      v := Meant(g);
    }
  }

  /** The next glyph, up to q; or, if it is sloppy, what is there for digits */
  lemma GlyphFound(s: string, p: nat, k: nat) returns (w: string, v: string, q: nat, bad: string)
    requires p < k < |s| && Close(s, p) == k && Decode(s, p, k).Ok?
    ensures bad == "" ==> Spells(w, v) && At(s, p, w) && q == p + |w| && p < q <= k
    ensures bad == "" ==> Close(s, q) == k && Decode(s, q, k).Ok?
    ensures bad != "" ==> Spelled(s, p, k, NoGlyphs, bad)
  {
    DecodeStarts(s, p, k);
    w, v, bad := NextGlyph(s, p, k);
    q := p + |w|;
    if bad == "" {
      GlyphIsRead(s, p, w, v, k);
      DecodeGoesOn(s, p, q, k);
    }
  }

  /** What an accepted string was: glyphs, up to its end or up to a sloppy one */
  lemma {:induction false} GlyphsFound(s: string, p: nat, k: nat) returns (gs: Glyphs, bad: string)
    requires p <= k < |s| && Close(s, p) == k && Decode(s, p, k).Ok?
    ensures Spelled(s, p, k, gs, bad)
    decreases k - p
  {
    gs, bad := NoGlyphs, "";
    if p < k {
      var w, v, q;
      w, v, q, bad := GlyphFound(s, p, k);
      if bad == "" {
        gs, bad := GlyphsFound(s, q, k);
        gs := Glyphs(w, v, gs);
      }
    }
  }

  lemma QuotesAround(s: string, k: nat, w: string)
    requires 1 <= k < |s| && s[0] == '"' == s[k] && At(s, 1, w) && 1 + |w| <= k
    ensures "\"" + w <= s[..k + 1] && (1 + |w| == k ==> s[..k + 1] == "\"" + w + "\"")
  {
    assert s[..k + 1][..1 + |w|] == [s[0]] + s[1..1 + |w|];
  }

  lemma MisspelledThere(s: string, k: nat, gs: Glyphs, bad: string)
    requires 1 <= k < |s| && Spelled(s, 1, k, gs, bad) && bad != "" && s[0] == '"' == s[k]
    ensures Misspelled(s[..k + 1])
  {
    SpelledIsProper(s, 1, k, gs, bad);
    SpelledIsAt(s, 1, k, gs, bad);
    JoinAt(s, 1, gs.Spelling(), "\\u" + bad);
    QuotesAround(s, k, gs.Spelling() + ("\\u" + bad));
  }

  lemma StringThere(s: string, k: nat, gs: Glyphs)
    requires 1 <= k < |s| && Spelled(s, 1, k, gs, "") && s[0] == '"' == s[k]
    ensures StringText(s[..k + 1], CString(gs.Meaning())) && ParseString(s) == Ok(CString(gs.Meaning()), s[k + 1..])
  {
    SpelledIsProper(s, 1, k, gs, "");
    SpelledIsAt(s, 1, k, gs, "");
    QuotesAround(s, k, gs.Spelling());
    QuotedIsParsed(s, gs, k);
  }

  /** An accepted string is one in quotes that stands for what was read, or it is misspelled. */
  lemma StringIsDenoted(s: string) returns (t: string)
    requires s != "" && ParseString(s).Ok?
    ensures s == t + ParseString(s).rest && |t| >= 2 && t[0] == '"'
    ensures StringText(t, ParseString(s).value) || Misspelled(t)
  {
    var k := Close(s, 1);
    t := s[..k + 1];
    assert s == t + s[k + 1..];
    var gs, bad := GlyphsFound(s, 1, k);
    if bad == "" {
      StringThere(s, k, gs);
    } else {
      MisspelledThere(s, k, gs, bad);
    }
  }
}
