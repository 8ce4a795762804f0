/** How cJSON decodes a string into the memory it has allocated for it (packages/cjson/cJSON.c:634-919). */
module JsonDecoder {
  import opened Json
  import opened JsonString

  // ----------------------------------------------------------------- \u escapes

  /** parse_hex4 */
  method ReadHex4(input: string) returns (h: nat)
    requires |input| == 4
    ensures h == Hex4(input)
  {
    h := 0;
    for i := 0 to 4
      invariant forall k :: 0 <= k < i ==> IsHex(input[k])
      invariant i == 1 ==> h == HexValue(input[0]) * 16
      invariant i == 2 ==> h == (HexValue(input[0]) * 16 + HexValue(input[1])) * 16
      invariant i == 3 ==> h == ((HexValue(input[0]) * 16 + HexValue(input[1])) * 16 + HexValue(input[2])) * 16
      invariant i == 0 ==> h == 0
      invariant i == 4 ==> h == Hex4(input)
    {
      if '0' <= input[i] <= '9' {
        h := h + (input[i] as nat - '0' as nat);
      } else if 'A' <= input[i] <= 'F' {
        h := h + 10 + input[i] as nat - 'A' as nat;
      } else if 'a' <= input[i] <= 'f' {
        h := h + 10 + input[i] as nat - 'a' as nat;
      } else {
        return 0;
      }
      if i < 3 {
        h := h * 16;
      }
    }
  }

  /** The UTF-8 loop of utf16_literal_to_utf8: the trailing bytes from the last to the first, then the lead. */
  method PutUtf8(codepoint: nat, output: array<char>, at: nat) returns (end: nat)
    requires codepoint <= 0x10FFFF && at + |Utf8(codepoint)| <= output.Length
    modifies output
    ensures end == at + |Utf8(codepoint)| && output[..end] == old(output[..at]) + Utf8(codepoint)
  {
    var length, mark := 1, 0;
    if codepoint < 0x80 {
    } else if codepoint < 0x800 {
      length, mark := 2, 0xC0;
    } else if codepoint < 0x1_0000 {
      length, mark := 3, 0xE0;
    } else {
      length, mark := 4, 0xF0;
    }
    end := at + length;
    Utf8IsLeadAndTrails(codepoint, length, mark);
    var bits := PutTrails(codepoint, length - 1, output, at + 1);
    PutLead(output, at, if length > 1 then Lead(mark, bits) else bits as char, end);
  }

  method PutLead(output: array<char>, at: nat, c: char, end: nat)
    requires at < end <= output.Length
    modifies output
    ensures output[..end] == old(output[..at]) + ([c] + old(output[at + 1..end]))
  {
    output[at] := c;
  }

  method PutTrails(codepoint: nat, count: nat, output: array<char>, at: nat) returns (bits: nat)
    requires 1 <= at && at + count <= output.Length
    modifies output
    ensures output[..at - 1] == old(output[..at - 1]) && output[at..at + count] == Trails(codepoint, count)
    ensures bits == Shifted(codepoint, count)
  {
    bits := codepoint;
    var position := count;
    while position > 0
      invariant 0 <= position <= count && bits == Shifted(codepoint, count - position)
      invariant output[..at - 1] == old(output[..at - 1])
      invariant output[at + position..at + count] == Trails(codepoint, count - position)
    {
      TrailsGrow(codepoint, count - position);
      ghost var done := output[at + position..at + count];
      position := position - 1;
      output[at + position] := Trail(bits);
      assert output[at + position..at + count] == [Trail(bits)] + done;
      bits := bits / 64;
    }
  }

  /** The bits that are left after k trailing bytes, and those bytes. */
  function Shifted(bits: nat, k: nat): nat {
    if k == 0 then bits else Shifted(bits, k - 1) / 64
  }

  function Trails(bits: nat, k: nat): (r: string)
    ensures |r| == k
  {
    if k == 0 then "" else Trails(bits / 64, k - 1) + [Trail(bits)]
  }

  lemma {:induction false} TrailsGrow(bits: nat, k: nat)
    ensures Trails(bits, k + 1) == [Trail(Shifted(bits, k))] + Trails(bits, k)
  {
    if k > 0 {
      TrailsGrow(bits / 64, k - 1);
      ShiftedFirst(bits, k - 1);
    }
  }

  lemma {:induction false} ShiftedFirst(bits: nat, k: nat)
    ensures Shifted(bits / 64, k) == Shifted(bits, k + 1)
  {
    if k > 0 {
      ShiftedFirst(bits, k - 1);
    }
  }

  lemma Utf8IsLeadAndTrails(cp: nat, n: nat, mark: nat)
    requires cp <= 0x10FFFF && n == |Utf8(cp)| && mark == [0, 0xC0, 0xE0, 0xF0][n - 1]
    ensures if n == 1 then Shifted(cp, 0) < 0x80 else Shifted(cp, n - 1) < 32
    ensures
      var bits := Shifted(cp, n - 1);
      Utf8(cp) == [if n > 1 then Lead(mark, bits) else bits as char] + Trails(cp, n - 1)
  {
    assert Shifted(cp, 1) == cp / 64 && Shifted(cp, 2) == cp / 64 / 64 && Shifted(cp, 3) == cp / 64 / 64 / 64;
    assert Trails(cp, 1) == [Trail(cp)];
    assert Trails(cp, 2) == [Trail(cp / 64), Trail(cp)] by {
      assert Trails(cp / 64, 1) == [Trail(cp / 64)];
    }
    assert Trails(cp, 3) == [Trail(cp / 64 / 64), Trail(cp / 64), Trail(cp)] by {
      assert Trails(cp / 64 / 64, 1) == [Trail(cp / 64 / 64)];
      assert Trails(cp / 64, 2) == [Trail(cp / 64 / 64), Trail(cp / 64)];
    }
  }

  // -------------------------------------------------------------------- strings

  /** The counting pass of parse_string over the text s that begins with the opening quote: where the string
      is closed, and how many bytes its escapes are certain to save. */
  method FindEnd(s: string) returns (ok: bool, inputEnd: nat, skipped: nat)
    requires s != ""
    ensures ok <==> Close(s, 1) != -1
    ensures ok ==> inputEnd == Close(s, 1) && skipped == Skipped(s, inputEnd)
  {
    inputEnd, skipped := 1, 0;
    while inputEnd < |s| && s[inputEnd] != '"'
      invariant 1 <= inputEnd <= |s|
      invariant Close(s, inputEnd) == Close(s, 1)
      invariant Visited(s, inputEnd) && skipped == Skipped(s, inputEnd)
      decreases |s| - inputEnd
    {
      if s[inputEnd] == '\\' {
        if inputEnd + 1 >= |s| {
          return false, inputEnd, skipped;
        }
        skipped := skipped + 1;
        inputEnd := inputEnd + 1;
      }
      inputEnd := inputEnd + 1;
    }
    ok := inputEnd < |s|;
  }

  /** utf16_literal_to_utf8 up to the encoding: the code point, and how long its escape is, or 0. */
  method ReadLiteral(s: string, p: nat, end: nat) returns (codepoint: nat, length: nat)
    requires p <= end <= |s|
    ensures
      var code := Literal(s, p, end);
      && (length == 0 <==> code.NoCode?)
      && (length != 0 ==> code == Code(codepoint, length))
  {
    if end - p < 6 {
      return 0, 0;
    }
    var first := ReadHex4(s[p + 2..p + 6]);
    if 0xDC00 <= first <= 0xDFFF {
      return 0, 0;
    }
    if !(0xD800 <= first <= 0xDBFF) {
      return first, 6;
    }
    if end - (p + 6) < 6 {
      return 0, 0;
    }
    if s[p + 6] != '\\' || s[p + 7] != 'u' {
      return 0, 0;
    }
    var second := ReadHex4(s[p + 8..p + 12]);
    if second < 0xDC00 || second > 0xDFFF {
      return 0, 0;
    }
    return 0x10000 + (first % 0x400 * 0x400 + second % 0x400), 12;
  }

  /** The decoding loop of parse_string, into exactly the memory that was allocated for it. */
  method DecodeString(s: string, inputEnd: nat, output: array<char>) returns (ok: bool, inputPointer: nat, length: nat)
    requires 1 <= inputEnd < |s| && s[inputEnd] == '"' && output.Length == AllocationLength(s, inputEnd) + 1
    modifies output
    ensures
      var r := Decode(s, 1, inputEnd);
      && (ok <==> r.Ok?)
      && (ok ==> length < output.Length && r.value == output[..length] && output[length] == NUL)
      && (!ok ==> inputPointer <= |s| && r.rest == s[inputPointer..])
    ensures ok ==> inputPointer <= inputEnd + 1
  {
    ghost var decoded := Decode(s, 1, inputEnd);
    inputPointer, length := 1, 0;
    TrackBegins(s, inputEnd);
    assert output[..0] == "";
    while inputPointer < inputEnd
      invariant length < output.Length && OnTrack(s, inputPointer, inputEnd, output[..length], decoded)
      decreases inputEnd + 1 - inputPointer
    {
      TurnIsCovered(s, inputPointer, inputEnd, output[..length], decoded);
      var step, end := PutDecoded(s, inputPointer, inputEnd, output, length);
      if step == 0 {
        return false, inputPointer, length;
      }
      inputPointer, length := inputPointer + step, end;
    }
    TrackEnds(s, inputPointer, inputEnd, output[..length], decoded);
    ghost var written := output[..length];
    output[length] := NUL;
    assert output[..length] == written;
    ok := true;
  }

  /** One turn of the decoding loop */
  method PutDecoded(s: string, p: nat, inputEnd: nat, output: array<char>, at: nat) returns (step: nat, end: nat)
    requires p < inputEnd < |s|
    requires
      var turn := DecodeOne(s, p, inputEnd);
      at < output.Length && (turn.step > 0 ==> at + |turn.bytes| <= output.Length)
    modifies output
    ensures
      var turn := DecodeOne(s, p, inputEnd);
      && step == turn.step
      && (step > 0 ==> end == at + |turn.bytes| && output[..end] == old(output[..at]) + turn.bytes)
  {
    step, end := 0, at;
    if s[p] != '\\' {
      output[at] := s[p];
      step, end := 1, at + 1;
    } else if s[p + 1] == 'u' {
      var codepoint;
      codepoint, step := ReadLiteral(s, p, inputEnd);
      if step != 0 {
        end := PutUtf8(codepoint, output, at);
      }
    } else {
      var known := PutUnescaped(s[p + 1], output, at);
      if known {
        step, end := 2, at + 1;
      }
    }
  }

  /** The cases of the switch for two-character escapes */
  method PutUnescaped(c: char, output: array<char>, at: nat) returns (known: bool)
    requires Unescape(c) != "" ==> at < output.Length
    modifies output
    ensures known <==> Unescape(c) != ""
    ensures known ==> output[..at + 1] == old(output[..at]) + Unescape(c)
  {
    known := true;
    if c == 'b' {
      output[at] := 8 as char;
    } else if c == 'f' {
      output[at] := 12 as char;
    } else if c == 'n' {
      output[at] := '\n';
    } else if c == 'r' {
      output[at] := '\r';
    } else if c == 't' {
      output[at] := '\t';
    } else if c == '"' || c == '\\' || c == '/' {
      output[at] := c;
    } else {
      known := false;
    }
  }
}
