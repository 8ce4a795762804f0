/** Printing a JSON tree into a buffer that grows, or that the caller supplies
    (packages/cjson/cJSON.c:443-554, 564-632, 922-1047, 1207-1333, 1391-1462, 1563-1622, 1743-1854). */
module JsonPrint {
  import opened Options
  import opened Json
  import opened ChildList
  import opened ItemTrees
  import opened JsonItems

  const DEFAULT_BUFFER_SIZE: nat := 256

  /** What print_string_ptr counts beyond the characters of the string itself. */
  function ExtraFor(c: char): (n: nat)
    ensures c != NUL ==> n == |Escaped(c)| - 1
  {
    if c == '"' || c == '\\' || c == 8 as char || c == 12 as char || c == '\n' || c == '\r' || c == '\t' then 1
    else if c as nat < 32 then 5
    else 0
  }

  lemma {:induction false} NothingToEscape(s: string)
    requires |Escapes(s)| == |s|
    ensures Escapes(s) == s
  {
    if s != "" {
      NothingToEscape(s[1..]);
      assert s == [s[0]] + s[1..];
    }
  }

  lemma EscapesStep(s: string, i: nat)
    requires i < |s|
    ensures Escapes(s[i..]) == Escaped(s[i]) + Escapes(s[i + 1..])
  {
    assert s[i..][0] == s[i] && s[i..][1..] == s[i + 1..];
  }

  lemma Regroup(a: string, b: string, c: string)
    ensures a + (b + c) == (a + b) + c
  {
  }

  /** The counting loop of print_string_ptr */
  method CountExtra(input: string) returns (escapeCharacters: nat)
    requires IsCString(input)
    ensures |input| + escapeCharacters == |Escapes(input)|
  {
    escapeCharacters := 0;
    for i := 0 to |input|
      invariant i + escapeCharacters + |Escapes(input[i..])| == |Escapes(input)|
    {
      EscapesStep(input, i);
      escapeCharacters := escapeCharacters + ExtraFor(input[i]);
    }
  }

  /** An integer of 32 bits is its own valueint. */
  lemma WholeIsNumber(d: real)
    requires IsInt32(d)
    ensures ValueInt(d) == d.Floor && ValueInt(d) as real == d
  {
    assert d < 0.0 ==> -d == (-d.Floor) as real;
  }

  lemma Enclose(before: string, left: string, text: string, right: string)
    ensures before + left + text + right == before + (left + text + right)
  {
  }

  /** The text of an object, and its parts between the opening brace and the end */
  datatype ObjectParts = ObjectParts(lines: string, closing: string, whole: string)
  {
    ghost predicate Of(before: string, members: Members, format: bool, depth: nat) {
      && lines == TextOfMembers(members, format, depth + 1) && closing == ClosingBrace(format, depth)
      && |whole| == |Brace(format)| + |lines| + |closing|
      && before + Brace(format) + lines + closing == before + whole
    }
  }

  lemma ObjectIsItsParts(before: string, j: Json, format: bool, depth: nat) returns (parts: ObjectParts)
    requires j.Object?
    ensures parts.whole == Text(j, format, depth) && parts.Of(before, j.members, format, depth)
  {
    var lines, closing := TextOfMembers(j.members, format, depth + 1), ClosingBrace(format, depth);
    Enclose(before, Brace(format), lines, closing);
    parts := ObjectParts(lines, closing, Text(j, format, depth));
  }

  lemma FiveParts(before: string, a: string, b: string, c: string, d: string, e: string)
    ensures before + (a + (b + c)) + (d + e) == before + (a + b + c + d + e)
  {
  }

  lemma LineIsItsParts(before: string, key: string, text: string, last: bool, format: bool, depth: nat)
    ensures
      var start, end := If(format, Tabs(depth)) + (Quoted(key) + Colon(format)), text + EndOfLine(last, format);
      && before + start + end == before + Line(key, text, last, format, depth)
      && |start| + |end| == |Line(key, text, last, format, depth)|
  {
    FiveParts(before, If(format, Tabs(depth)), Quoted(key), Colon(format), text, EndOfLine(last, format));
  }

  class PrintBuffer {
    var buffer: array<char>
    var length: nat
    var offset: nat
    var depth: nat
    const noalloc: bool
    const format: bool
    /** What has been printed; the offset may lag behind it. */
    ghost var text: string
    /** What the last ensure reserved. */
    ghost var from: nat
    ghost var window: nat

    ghost predicate Valid()
      reads this, buffer
    {
      && length <= buffer.Length && length <= INT_MAX
      && offset <= |text| <= buffer.Length && buffer[..|text|] == text
      && window <= length
    }

    /** The offset is at the end of the text, where ensure will not refuse it. */
    ghost predicate Open()
      reads this
    {
      offset == |text| && (length > 0 ==> offset < length)
    }

    /** The text is a C string in the buffer. */
    ghost predicate Terminated()
      reads this, buffer
    {
      |text| < length <= buffer.Length && buffer[|text|] == NUL
    }

    /** How large the buffer can be at most. */
    ghost function Limit(): int
      reads this
    {
      if noalloc then length else INT_MAX
    }

    constructor (buffer: array<char>, length: nat, noalloc: bool, format: bool)
      requires length <= buffer.Length && length <= INT_MAX
      ensures Valid() && Open() && this.buffer == buffer && this.length == length && depth == 0 && text == ""
      ensures this.noalloc == noalloc && this.format == format
    {
      this.buffer, this.length, offset, depth := buffer, length, 0, 0;
      this.noalloc, this.format := noalloc, format;
      text, from, window := "", 0, 0;
    }

    /** ensure: at least needed bytes and one more behind the offset, moving the text if it must. */
    method Ensure(needed: nat) returns (ok: bool, output: nat)
      requires Valid() && offset == |text|
      modifies this`buffer, this`length, this`from, this`window
      ensures Valid() && Limit() == old(Limit()) && (buffer == old(buffer) || (!noalloc && fresh(buffer)))
      ensures ok <==> old(Open()) && offset + needed + 1 <= Limit()
      ensures ok ==> output == offset == from && window == offset + needed < length
    {
      output := offset;
      if length > 0 && offset >= length {
        return false, output;
      }
      if needed > INT_MAX {
        return false, output;
      }
      var total := needed + offset + 1;
      if total <= length {
        from, window := offset, offset + needed;
        return true, output;
      }
      if noalloc {
        return false, output;
      }
      var newsize := total * 2;
      if total > INT_MAX / 2 {
        if total > INT_MAX {
          return false, output;
        }
        newsize := INT_MAX;
      }
      Reallocate(newsize);
      from, window := offset, offset + needed;
      return true, output;
    }

    /** realloc: the first bytes are kept, and what lies behind them is arbitrary. */
    method Reallocate(newsize: nat)
      modifies this`buffer, this`length
      ensures length == newsize && fresh(buffer) && buffer.Length == newsize
      ensures forall i :: 0 <= i < newsize && i < old(buffer.Length) ==> buffer[i] == old(buffer[i])
    {
      var oldbuffer, newbuffer := buffer, new char[newsize];
      for i := 0 to if newsize < oldbuffer.Length then newsize else oldbuffer.Length
        invariant newbuffer[..i] == oldbuffer[..i]
        invariant oldbuffer[..] == old(buffer[..])
      {
        newbuffer[i] := oldbuffer[i];
      }
      buffer, length := newbuffer, newsize;
    }

    /** The end of print: the buffer shrinks to the text and its terminator. */
    method Shrink() returns (printed: array<char>)
      requires Valid() && offset == |text| && Terminated()
      modifies this`buffer, this`length
      ensures fresh(printed) && printed[..] == text + [NUL]
    {
      Reallocate(offset + 1);
      printed := buffer;
    }

    /** Every write of a printer lies inside what the last ensure reserved. */
    method Put(at: nat, c: char)
      requires Valid() && at == |text| && from <= at < window
      modifies buffer, this`text
      ensures Valid() && text == old(text) + [c]
    {
      buffer[at] := c;
      text := text + [c];
    }

    method PutTerminator(at: nat)
      requires Valid() && at == |text| && from <= at < window
      modifies buffer
      ensures Valid() && Terminated()
    {
      buffer[at] := NUL;
    }

    method PutString(at: nat, s: string)
      requires Valid() && at == |text| && from <= at && at + |s| <= window
      modifies buffer, this`text
      ensures Valid() && text == old(text) + s
    {
      for i := 0 to |s|
        invariant Valid() && text == old(text) + s[..i]
      {
        Put(at + i, s[i]);
      }
    }

    /** strcpy */
    method PutCString(at: nat, s: string)
      requires Valid() && at == |text| && from <= at && at + |s| < window
      modifies buffer, this`text
      ensures Valid() && Terminated() && text == old(text) + s
    {
      PutString(at, s);
      PutTerminator(at + |s|);
    }

    /** update_offset: strlen from the offset on */
    method UpdateOffset()
      requires Valid() && Terminated() && forall i :: offset <= i < |text| ==> text[i] != NUL
      modifies this`offset
      ensures Valid() && Open() && Terminated()
    {
      var strlen := 0;
      while buffer[offset + strlen] != NUL
        invariant offset == old(offset) && offset + strlen <= |text|
        decreases |text| - strlen
      {
        strlen := strlen + 1;
      }
      offset := offset + strlen;
    }

    method PrintLiteral(s: string) returns (ok: bool)
      requires Valid() && Open()
      modifies this, buffer
      ensures Valid() && Limit() == old(Limit()) && (buffer == old(buffer) || (!noalloc && fresh(buffer)))
      ensures ok <==> old(offset) + |s| + 2 <= Limit()
      ensures ok ==> Terminated() && depth == old(depth) && offset == old(offset) && text == old(text) + s
    {
      var output;
      ok, output := Ensure(|s| + 1);
      if ok {
        PutCString(output, s);
      }
    }

    /** print_number on a 32-bit integer */
    method PrintNumber(item: Item) returns (ok: bool)
      requires Valid() && Open() && item.payload.number == item.payload.whole as real
      requires INT_MIN <= item.payload.whole <= INT_MAX
      modifies this, buffer
      ensures Valid() && Limit() == old(Limit()) && (buffer == old(buffer) || (!noalloc && fresh(buffer)))
      ensures ok <==> old(offset) + |Decimal(item.payload.whole)| + 2 <= Limit()
      ensures ok ==> Terminated() && depth == old(depth) && offset == |text|
      ensures ok ==> text == old(text) + Decimal(item.payload.whole)
    {
      var numberBuffer := Decimal(item.payload.whole);
      DecimalFits(item.payload.whole);
      if |numberBuffer| > 26 - 1 {
        assert false;
      }
      var output;
      ok, output := Ensure(|numberBuffer| + 1);
      if ok {
        PutCString(output, numberBuffer);
        offset := offset + |numberBuffer|;
      }
    }

    /** The escaping loop of print_string_ptr; output stands behind the opening quote. */
    method PutEscapes(input: string, output: nat) returns (end: nat)
      requires Valid() && IsCString(input) && output == |text| && from <= output && output + |Escapes(input)| < window
      modifies buffer, this`text
      ensures Valid() && end == |text| && text == old(text) + Escapes(input)
    {
      end := output;
      for i := 0 to |input|
        invariant Valid() && output <= end == |text|
        invariant text + Escapes(input[i..]) == old(text) + Escapes(input)
      {
        EscapesStep(input, i);
        Regroup(text, Escaped(input[i]), Escapes(input[i + 1..]));
        end := PutEscaped(input[i], end);
      }
    }

    method PutEscaped(c: char, output: nat) returns (end: nat)
      requires Valid() && c != NUL && output == |text| && from <= output && output + |Escaped(c)| < window
      modifies buffer, this`text
      ensures Valid() && end == |text| && text == old(text) + Escaped(c)
    {
      end := output;
      if c as nat > 31 && c != '"' && c != '\\' {
        Put(end, c);
      } else {
        Put(end, '\\');
        end := end + 1;
        if c == '\\' {
          Put(end, '\\');
        } else if c == '"' {
          Put(end, '"');
        } else if c == 8 as char {
          Put(end, 'b');
        } else if c == 12 as char {
          Put(end, 'f');
        } else if c == '\n' {
          Put(end, 'n');
        } else if c == '\r' {
          Put(end, 'r');
        } else if c == '\t' {
          Put(end, 't');
        } else {
          PutCString(end, "u00" + [DigitChar(c as nat / 16), DigitChar(c as nat % 16)]);
          end := end + 4;
        }
      }
      end := end + 1;
    }

    /** What print_string_ptr writes, with nothing to escape or with something */
    method PutQuoted(input: string, escapeCharacters: nat, output: nat)
      requires Valid() && IsCString(input) && |input| + escapeCharacters == |Escapes(input)|
      requires output == |text| && from <= output && output + |Escapes(input)| + 2 < window
      modifies buffer, this`text
      ensures Valid() && Terminated() && text == old(text) + Quoted(input)
    {
      Put(output, '"');
      if escapeCharacters == 0 {
        NothingToEscape(input);
        PutString(output + 1, input);
      } else {
        var _ := PutEscapes(input, output + 1);
      }
      PutCString(output + 1 + |input| + escapeCharacters, "\"");
      Enclose(old(text), "\"", Escapes(input), "\"");
    }

    /** print_string_ptr */
    method PrintString(input: string) returns (ok: bool)
      requires Valid() && Open() && IsCString(input)
      modifies this, buffer
      ensures Valid() && Limit() == old(Limit()) && (buffer == old(buffer) || (!noalloc && fresh(buffer)))
      ensures ok <==> old(offset) + |Quoted(input)| + 2 <= Limit()
      ensures ok ==> Terminated() && depth == old(depth) && offset == old(offset) && text == old(text) + Quoted(input)
    {
      var escapeCharacters := CountExtra(input);
      var outputLength := |input| + escapeCharacters;
      var output;
      ok, output := Ensure(outputLength + 3);
      if ok {
        PutQuoted(input, escapeCharacters, output);
      }
    }

    /** print_value */
    method PrintValue(item: Item, ghost sh: Shape, ghost name: Option<string>, ghost j: Json,
                      ghost roots: set<Item>, ghost under: set<Item>) returns (ok: bool)
      requires Valid() && Open() && Printable(j)
      requires Holds(sh, TreeOf(name, j), roots, under) && sh.node == item
      modifies this, buffer
      ensures Valid() && Limit() == old(Limit()) && (buffer == old(buffer) || (!noalloc && fresh(buffer)))
      ensures ok <==> old(offset) + |Text(j, format, old(depth))| + 2 <= Limit()
      ensures ok ==> Terminated() && depth == old(depth) && old(offset) <= offset
      ensures ok ==> text == old(text) + Text(j, format, depth)
      decreases j, 0
    {
      if item.payload.kind == 4 {
        ok := PrintLiteral("null");
      } else if item.payload.kind == 1 {
        ok := PrintLiteral("false");
      } else if item.payload.kind == 2 {
        ok := PrintLiteral("true");
      } else if item.payload.kind == 8 {
        WholeIsNumber(j.value);
        ok := PrintNumber(item);
      } else if item.payload.kind == 16 {
        ok := PrintString(item.payload.text.value);
      } else if item.payload.kind == 32 {
        ok := PrintArray(item, sh, name, j.elems, roots, under);
      } else {
        ghost var parts := ObjectIsItsParts(text, j, format, depth);
        ok := PrintObject(item, sh, name, j.members, roots, under, parts);
      }
    }

    /** print_value followed by update_offset */
    method PrintWhole(item: Item, ghost sh: Shape, ghost name: Option<string>, ghost j: Json,
                      ghost roots: set<Item>, ghost under: set<Item>) returns (ok: bool)
      requires Valid() && Open() && Printable(j)
      requires Holds(sh, TreeOf(name, j), roots, under) && sh.node == item
      modifies this, buffer
      ensures Valid() && Limit() == old(Limit()) && (buffer == old(buffer) || (!noalloc && fresh(buffer)))
      ensures ok <==> old(offset) + |Text(j, format, old(depth))| + 2 <= Limit()
      ensures ok ==> Open() && Terminated() && depth == old(depth) && text == old(text) + Text(j, format, depth)
      decreases j, 1
    {
      ok := PrintValue(item, sh, name, j, roots, under);
      if ok {
        TextIsCString(j, format, depth);
        UpdateOffset();
      }
    }

    method PrintComma(current: Item, ghost tail: Elems) returns (ok: bool)
      requires Valid() && Open() && (current.next == null <==> tail.NoElems?)
      modifies this, buffer
      ensures Valid() && Limit() == old(Limit()) && (buffer == old(buffer) || (!noalloc && fresh(buffer)))
      ensures !ok ==> old(offset) + |Comma(tail, format)| + 2 > Limit()
      ensures ok ==> Open() && depth == old(depth) && text == old(text) + Comma(tail, format)
      ensures ok && tail.Elem? ==> offset + 2 <= Limit()
    {
      ok := true;
      if current.next != null {
        var length := if format then 2 else 1;
        var output;
        ok, output := Ensure(length + 1);
        if ok {
          PutCString(output, if format then ", " else ",");
          offset := offset + length;
        }
      }
    }

    method PrintElem(current: Item, ghost sh: Shape, ghost elems: Elems, ghost all: set<Item>) returns (ok: bool)
      requires Valid() && Open() && PrintableElems(elems) && elems.Elem?
      requires Holds(sh, TreeOf(None, elems.head), all, all) && sh.node == current
      requires current.next == null <==> elems.tail.NoElems?
      modifies this, buffer
      ensures Valid() && Limit() == old(Limit()) && (buffer == old(buffer) || (!noalloc && fresh(buffer)))
      ensures
        var line := Text(elems.head, format, old(depth)) + Comma(elems.tail, format);
        && (ok <==> old(offset) + |line| + 2 <= Limit())
        && (ok ==> Open() && depth == old(depth) && text == old(text) + line)
      decreases elems, 0
    {
      ok := PrintWhole(current, sh, None, elems.head, all, all);
      if ok {
        ok := PrintComma(current, elems.tail);
      }
    }

    /** One turn of the loop of print_array, for the child that the cursor points at */
    method PrintNextElem(current: Item, ghost item: Item, ghost s: seq<Item>, ghost k: nat, ghost rest: Shapes,
                         ghost elems: Elems, ghost all: set<Item>) returns (ok: bool, next: Item?)
      requires Valid() && Open() && PrintableElems(elems)
      requires Source(item, s, k, rest, TreesOfElems(elems), all) && current == First(Roots(rest))
      modifies this, buffer
      ensures Valid() && Limit() == old(Limit()) && (buffer == old(buffer) || (!noalloc && fresh(buffer)))
      ensures elems.Elem? && rest.SomeShapes?
      ensures Source(item, s, k + 1, rest.tail, TreesOfElems(elems.tail), all) && next == First(Roots(rest.tail))
      ensures !ok ==> old(offset) + |TextOfElems(elems, format, old(depth))| + 2 > Limit()
      ensures ok ==> Open() && depth == old(depth)
      ensures ok ==> text + TextOfElems(elems.tail, format, depth) == old(text) + TextOfElems(elems, format, depth)
      decreases elems, 1
    {
      ElemIsThere(item, s, k, rest, elems, all);
      Regroup(text, Text(elems.head, format, depth) + Comma(elems.tail, format), TextOfElems(elems.tail, format, depth));
      ok := PrintElem(current, rest.head, elems, all);
      next := current.next;
    }

    /** The loop of print_array */
    method PrintElems(item: Item, ghost sh: Shape, ghost name: Option<string>, ghost elems: Elems,
                      ghost roots: set<Item>, ghost all: set<Item>) returns (ok: bool)
      requires Valid() && Open() && PrintableElems(elems)
      requires Holds(sh, TreeOf(name, Array(elems)), roots, all) && sh.node == item
      modifies this, buffer
      ensures Valid() && Limit() == old(Limit()) && (buffer == old(buffer) || (!noalloc && fresh(buffer)))
      ensures !ok ==> old(offset) + |TextOfElems(elems, format, old(depth))| + 2 > Limit()
      ensures ok ==> Open() && depth == old(depth) && old(offset) <= offset
      ensures ok ==> text == old(text) + TextOfElems(elems, format, depth)
      decreases elems, 3
    {
      SourceStarts(sh, TreeOf(name, Array(elems)), roots, all);
      ok := PrintElemsFrom(item, Roots(sh.kids), sh.kids, elems, all);
    }

    /** The same for children that are given */
    method PrintElemsFrom(item: Item, ghost s: seq<Item>, ghost kids: Shapes, ghost elems: Elems,
                          ghost all: set<Item>) returns (ok: bool)
      requires Valid() && Open() && PrintableElems(elems)
      requires Source(item, s, 0, kids, TreesOfElems(elems), all) && item.child == First(Roots(kids))
      modifies this, buffer
      ensures Valid() && Limit() == old(Limit()) && (buffer == old(buffer) || (!noalloc && fresh(buffer)))
      ensures !ok ==> old(offset) + |TextOfElems(elems, format, old(depth))| + 2 > Limit()
      ensures ok ==> Open() && depth == old(depth) && old(offset) <= offset
      ensures ok ==> text == old(text) + TextOfElems(elems, format, depth)
      decreases elems, 2
    {
      var current := item.child;
      ghost var k: nat, rest, left := 0, kids, elems;
      while current != null
        invariant Valid() && Open() && Limit() == old(Limit()) && (buffer == old(buffer) || (!noalloc && fresh(buffer)))
        invariant Source(item, s, k, rest, TreesOfElems(left), all) && current == First(Roots(rest))
        invariant depth == old(depth) && PrintableElems(left) && (left == elems || left < elems)
        invariant text + TextOfElems(left, format, depth) == old(text) + TextOfElems(elems, format, depth)
        decreases left
      {
        ok, current := PrintNextElem(current, item, s, k, rest, left, all);
        if !ok {
          return;
        }
        k, rest, left := k + 1, rest.tail, left.tail;
      }
      ok := true;
    }

    method PrintBracket() returns (ok: bool)
      requires Valid() && Open()
      modifies this, buffer
      ensures Valid() && Limit() == old(Limit()) && (buffer == old(buffer) || (!noalloc && fresh(buffer)))
      ensures ok ==> Open() && depth == old(depth) + 1 && old(offset) <= offset && text == old(text) + "["
      ensures !ok ==> old(offset) + 2 > Limit()
    {
      var output;
      ok, output := Ensure(1);
      if ok {
        Put(output, '[');
        offset := offset + 1;
        depth := depth + 1;
      }
    }

    method PrintClosingBracket() returns (ok: bool)
      requires Valid() && Open() && depth > 0
      modifies this, buffer
      ensures Valid() && Limit() == old(Limit()) && (buffer == old(buffer) || (!noalloc && fresh(buffer)))
      ensures ok <==> old(offset) + 3 <= Limit()
      ensures ok ==> Terminated() && depth == old(depth) - 1 && offset == old(offset) && text == old(text) + "]"
    {
      var output;
      ok, output := Ensure(2);
      if ok {
        PutCString(output, "]");
        depth := depth - 1;
      }
    }

    /** print_array */
    method PrintArray(item: Item, ghost sh: Shape, ghost name: Option<string>, ghost elems: Elems,
                      ghost roots: set<Item>, ghost all: set<Item>) returns (ok: bool)
      requires Valid() && Open() && PrintableElems(elems)
      requires Holds(sh, TreeOf(name, Array(elems)), roots, all) && sh.node == item
      modifies this, buffer
      ensures Valid() && Limit() == old(Limit()) && (buffer == old(buffer) || (!noalloc && fresh(buffer)))
      ensures ok <==> old(offset) + |Text(Array(elems), format, old(depth))| + 2 <= Limit()
      ensures ok ==> Terminated() && depth == old(depth) && old(offset) <= offset
      ensures ok ==> text == old(text) + Text(Array(elems), format, depth)
      decreases elems, 4
    {
      ok := PrintBracket();
      if !ok {
        return;
      }
      ok := PrintElems(item, sh, name, elems, roots, all);
      if !ok {
        return;
      }
      ok := PrintClosingBracket();
      Enclose(old(text), "[", TextOfElems(elems, format, old(depth) + 1), "]");
    }

    /** The tabs in front of a member or of a closing brace */
    method PutTabs(n: nat, output: nat) returns (end: nat)
      requires Valid() && output == |text| && from <= output && output + n <= window
      modifies buffer, this`text
      ensures Valid() && end == |text| && text == old(text) + Tabs(n)
    {
      end := output;
      for i := 0 to n
        invariant Valid() && end == |text| == output + i && text == old(text) + Tabs(i)
      {
        Put(end, '\t');
        end := end + 1;
        assert Tabs(i + 1) == Tabs(i) + ['\t'];
      }
    }

    method PrintIndent() returns (ok: bool)
      requires Valid() && Open()
      modifies this, buffer
      ensures Valid() && Limit() == old(Limit()) && (buffer == old(buffer) || (!noalloc && fresh(buffer)))
      ensures ok ==> Open() && depth == old(depth) && text == old(text) + If(format, Tabs(depth))
      ensures !ok ==> old(offset) + |If(format, Tabs(old(depth)))| + 2 > Limit()
    {
      ok := true;
      if format {
        var output;
        ok, output := Ensure(depth);
        if ok {
          var _ := PutTabs(depth, output);
          offset := offset + depth;
        }
      }
    }

    method PrintKey(key: string) returns (ok: bool)
      requires Valid() && Open() && IsCString(key)
      modifies this, buffer
      ensures Valid() && Limit() == old(Limit()) && (buffer == old(buffer) || (!noalloc && fresh(buffer)))
      ensures ok ==> Open() && depth == old(depth) && text == old(text) + (Quoted(key) + Colon(format))
      ensures !ok ==> old(offset) + |Quoted(key)| + |Colon(format)| + 2 > Limit()
    {
      ok := PrintString(key);
      if !ok {
        return;
      }
      UpdateOffset();
      var length := if format then 2 else 1;
      var output;
      ok, output := Ensure(length);
      if ok {
        PutString(output, Colon(format));
        offset := offset + length;
      }
    }

    method PrintEndOfLine(current: Item) returns (ok: bool)
      requires Valid() && Open()
      modifies this, buffer
      ensures Valid() && Limit() == old(Limit()) && (buffer == old(buffer) || (!noalloc && fresh(buffer)))
      ensures ok <==> old(offset) + |EndOfLine(current.next == null, format)| + 2 <= Limit()
      ensures ok ==> Open() && depth == old(depth) && text == old(text) + EndOfLine(current.next == null, format)
    {
      var length := (if format then 1 else 0) + (if current.next != null then 1 else 0);
      var output;
      ok, output := Ensure(length + 1);
      if ok {
        PutCString(output, EndOfLine(current.next == null, format));
        offset := offset + length;
      }
    }

    /** The name of a member, and what is in front of it and behind it */
    method PrintName(current: Item, ghost name: string) returns (ok: bool)
      requires Valid() && Open() && current.payload.name == Some(name) && IsCString(name)
      modifies this, buffer
      ensures Valid() && Limit() == old(Limit()) && (buffer == old(buffer) || (!noalloc && fresh(buffer)))
      ensures
        var start := If(format, Tabs(old(depth))) + (Quoted(name) + Colon(format));
        && (!ok ==> old(offset) + |start| + 2 > Limit())
        && (ok ==> Open() && depth == old(depth) && text == old(text) + start)
    {
      ok := PrintIndent();
      if ok {
        ok := PrintKey(current.payload.name.value);
      }
      Regroup(old(text), If(format, Tabs(old(depth))), Quoted(name) + Colon(format));
    }

    /** Its value, and what separates it from the next */
    method PrintRest(current: Item, ghost sh: Shape, ghost members: Members, ghost all: set<Item>) returns (ok: bool)
      requires Valid() && Open() && PrintableMembers(members) && members.Member?
      requires Holds(sh, TreeOf(Some(members.key), members.value), all, all) && sh.node == current
      requires current.next == null <==> members.rest.NoMembers?
      modifies this, buffer
      ensures Valid() && Limit() == old(Limit()) && (buffer == old(buffer) || (!noalloc && fresh(buffer)))
      ensures
        var end := Text(members.value, format, old(depth)) + EndOfLine(members.rest.NoMembers?, format);
        && (ok <==> old(offset) + |end| + 2 <= Limit())
        && (ok ==> Open() && depth == old(depth) && text == old(text) + end)
      decreases members, 0
    {
      ok := PrintWhole(current, sh, Some(members.key), members.value, all, all);
      if ok {
        ok := PrintEndOfLine(current);
      }
    }

    method PrintMember(current: Item, ghost sh: Shape, ghost members: Members, ghost all: set<Item>) returns (ok: bool)
      requires Valid() && Open() && PrintableMembers(members) && members.Member?
      requires Holds(sh, TreeOf(Some(members.key), members.value), all, all) && sh.node == current
      requires current.payload.name == Some(members.key) && (current.next == null <==> members.rest.NoMembers?)
      modifies this, buffer
      ensures Valid() && Limit() == old(Limit()) && (buffer == old(buffer) || (!noalloc && fresh(buffer)))
      ensures
        var line := Line(members.key, Text(members.value, format, old(depth)), members.rest.NoMembers?, format, old(depth));
        && (ok <==> old(offset) + |line| + 2 <= Limit())
        && (ok ==> Open() && depth == old(depth) && text == old(text) + line)
      decreases members, 1
    {
      LineIsItsParts(text, members.key, Text(members.value, format, depth), members.rest.NoMembers?, format, depth);
      ok := PrintName(current, members.key);
      if ok {
        ok := PrintRest(current, sh, members, all);
      }
    }

    /** One turn of the loop of print_object, for the child that the cursor points at */
    method PrintNextMember(current: Item, ghost item: Item, ghost s: seq<Item>, ghost k: nat, ghost rest: Shapes,
                           ghost members: Members, ghost all: set<Item>) returns (ok: bool, next: Item?)
      requires Valid() && Open() && PrintableMembers(members)
      requires Source(item, s, k, rest, TreesOfMembers(members), all) && current == First(Roots(rest))
      modifies this, buffer
      ensures Valid() && Limit() == old(Limit()) && (buffer == old(buffer) || (!noalloc && fresh(buffer)))
      ensures members.Member? && rest.SomeShapes?
      ensures Source(item, s, k + 1, rest.tail, TreesOfMembers(members.rest), all) && next == First(Roots(rest.tail))
      ensures !ok ==> old(offset) + |TextOfMembers(members, format, old(depth))| + 2 > Limit()
      ensures ok ==> Open() && depth == old(depth)
      ensures ok ==> text + TextOfMembers(members.rest, format, depth) == old(text) + TextOfMembers(members, format, depth)
      decreases members, 2
    {
      MemberIsThere(item, s, k, rest, members, all);
      Regroup(text, Line(members.key, Text(members.value, format, depth), members.rest.NoMembers?, format, depth),
              TextOfMembers(members.rest, format, depth));
      ok := PrintMember(current, rest.head, members, all);
      next := current.next;
    }

    method PrintBrace() returns (ok: bool)
      requires Valid() && Open()
      modifies this, buffer
      ensures Valid() && Limit() == old(Limit()) && (buffer == old(buffer) || (!noalloc && fresh(buffer)))
      ensures ok ==> Open() && depth == old(depth) + 1 && old(offset) <= offset && text == old(text) + Brace(format)
      ensures !ok ==> old(offset) + |Brace(format)| + 2 > Limit()
    {
      var length := if format then 2 else 1;
      var output;
      ok, output := Ensure(length + 1);
      if ok {
        PutString(output, Brace(format));
        depth := depth + 1;
        offset := offset + length;
      }
    }

    method PrintClosingBrace(ghost outer: nat, ghost closing: string) returns (ok: bool)
      requires Valid() && Open() && depth == outer + 1 && closing == ClosingBrace(format, outer)
      modifies this, buffer
      ensures Valid() && Limit() == old(Limit()) && (buffer == old(buffer) || (!noalloc && fresh(buffer)))
      ensures ok <==> old(offset) + |closing| + 2 <= Limit()
      ensures ok ==> Terminated() && depth == outer && offset == old(offset) && text == old(text) + closing
    {
      var output;
      ok, output := Ensure(if format then depth + 1 else 2);
      if ok {
        if format {
          output := PutTabs(depth - 1, output);
        }
        PutCString(output, "}");
        depth := depth - 1;
      }
    }

    /** The loop of print_object */
    method PrintMembers(item: Item, ghost sh: Shape, ghost name: Option<string>, ghost members: Members,
                        ghost roots: set<Item>, ghost all: set<Item>) returns (ok: bool)
      requires Valid() && Open() && PrintableMembers(members)
      requires Holds(sh, TreeOf(name, Object(members)), roots, all) && sh.node == item
      modifies this, buffer
      ensures Valid() && Limit() == old(Limit()) && (buffer == old(buffer) || (!noalloc && fresh(buffer)))
      ensures !ok ==> old(offset) + |TextOfMembers(members, format, old(depth))| + 2 > Limit()
      ensures ok ==> Open() && depth == old(depth) && old(offset) <= offset
      ensures ok ==> text == old(text) + TextOfMembers(members, format, depth)
      decreases members, 4
    {
      SourceStarts(sh, TreeOf(name, Object(members)), roots, all);
      ok := PrintMembersFrom(item, Roots(sh.kids), sh.kids, members, all);
    }

    /** The same for children that are given */
    method PrintMembersFrom(item: Item, ghost s: seq<Item>, ghost kids: Shapes, ghost members: Members,
                            ghost all: set<Item>) returns (ok: bool)
      requires Valid() && Open() && PrintableMembers(members)
      requires Source(item, s, 0, kids, TreesOfMembers(members), all) && item.child == First(Roots(kids))
      modifies this, buffer
      ensures Valid() && Limit() == old(Limit()) && (buffer == old(buffer) || (!noalloc && fresh(buffer)))
      ensures !ok ==> old(offset) + |TextOfMembers(members, format, old(depth))| + 2 > Limit()
      ensures ok ==> Open() && depth == old(depth) && old(offset) <= offset
      ensures ok ==> text == old(text) + TextOfMembers(members, format, depth)
      decreases members, 3
    {
      var current := item.child;
      ghost var k: nat, rest, left := 0, kids, members;
      while current != null
        invariant Valid() && Open() && Limit() == old(Limit()) && (buffer == old(buffer) || (!noalloc && fresh(buffer)))
        invariant Source(item, s, k, rest, TreesOfMembers(left), all) && current == First(Roots(rest))
        invariant depth == old(depth) && PrintableMembers(left) && (left == members || left < members)
        invariant text + TextOfMembers(left, format, depth) == old(text) + TextOfMembers(members, format, depth)
        decreases left
      {
        ok, current := PrintNextMember(current, item, s, k, rest, left, all);
        if !ok {
          return;
        }
        k, rest, left := k + 1, rest.tail, left.rest;
      }
      ok := true;
    }

    method PrintAllButTheClosingBrace(item: Item, ghost sh: Shape, ghost name: Option<string>, ghost members: Members,
                                      ghost roots: set<Item>, ghost all: set<Item>, ghost lines: string)
      returns (ok: bool)
      requires Valid() && Open() && PrintableMembers(members) && lines == TextOfMembers(members, format, depth + 1)
      requires Holds(sh, TreeOf(name, Object(members)), roots, all) && sh.node == item
      modifies this, buffer
      ensures Valid() && Limit() == old(Limit()) && (buffer == old(buffer) || (!noalloc && fresh(buffer)))
      ensures !ok ==> old(offset) + |Brace(format)| + |lines| + 2 > Limit()
      ensures ok ==> Open() && depth == old(depth) + 1 && old(offset) <= offset
      ensures ok ==> text == old(text) + Brace(format) + lines
      decreases members, 5
    {
      ok := PrintBrace();
      if ok {
        ok := PrintMembers(item, sh, name, members, roots, all);
      }
    }

    /** print_object; the whole of the parts is the text of the object (ObjectIsItsParts). */
    method PrintObject(item: Item, ghost sh: Shape, ghost name: Option<string>, ghost members: Members,
                       ghost roots: set<Item>, ghost all: set<Item>, ghost parts: ObjectParts) returns (ok: bool)
      requires Valid() && Open() && PrintableMembers(members)
      requires Holds(sh, TreeOf(name, Object(members)), roots, all) && sh.node == item
      requires parts.Of(text, members, format, depth)
      modifies this, buffer
      ensures Valid() && Limit() == old(Limit()) && (buffer == old(buffer) || (!noalloc && fresh(buffer)))
      ensures ok <==> old(offset) + |parts.whole| + 2 <= Limit()
      ensures ok ==> Terminated() && depth == old(depth) && old(offset) <= offset && text == old(text) + parts.whole
      decreases members, 6
    {
      ok := PrintAllButTheClosingBrace(item, sh, name, members, roots, all, parts.lines);
      if !ok {
        return;
      }
      ok := PrintClosingBrace(old(depth), parts.closing);
    }
  }

  /** A printbuffer on the stack, over memory that is given or allocated for it; the items are not touched. */
  method PrintBufferOver(buffer: array<char>, length: nat, noalloc: bool, format: bool,
                         ghost sh: Shape, ghost t: Tree, ghost roots: set<Item>, ghost under: set<Item>)
    returns (p: PrintBuffer)
    requires length <= buffer.Length && length <= INT_MAX && Holds(sh, t, roots, under)
    ensures fresh(p) && p.Valid() && p.Open() && p.buffer == buffer && p.length == length && p.depth == 0 && p.text == ""
    ensures p.noalloc == noalloc && p.format == format && Holds(sh, t, roots, under)
  {
    p := new PrintBuffer(buffer, length, noalloc, format);
  }

  method NewPrintBuffer(length: nat, format: bool,
                        ghost sh: Shape, ghost t: Tree, ghost roots: set<Item>, ghost under: set<Item>)
    returns (p: PrintBuffer)
    requires length <= INT_MAX && Holds(sh, t, roots, under)
    ensures fresh(p) && fresh(p.buffer) && p.Valid() && p.Open() && p.depth == 0 && p.text == ""
    ensures !p.noalloc && p.format == format && Holds(sh, t, roots, under)
  {
    var buffer := new char[length];
    p := PrintBufferOver(buffer, length, false, format, sh, t, roots, under);
  }

  /** cJSON_PrintPreallocated: it succeeds exactly when the length covers the text, its terminator and one
      byte more; then the buffer holds the text as a C string. */
  method PrintPreallocated(item: Item, buffer: array<char>, length: int, format: bool,
                           ghost sh: Shape, ghost name: Option<string>, ghost j: Json) returns (ok: bool)
    requires length <= buffer.Length && length <= INT_MAX && Printable(j)
    requires Stands(sh, TreeOf(name, j)) && sh.node == item
    modifies buffer
    ensures ok <==> length >= |Text(j, format, 0)| + 2
    ensures ok ==> buffer[..|Text(j, format, 0)| + 1] == Text(j, format, 0) + [NUL]
  {
    if length < 0 {
      return false;
    }
    ghost var under := NodesOf(sh.kids);
    var p := PrintBufferOver(buffer, length, true, format, sh, TreeOf(name, j), {item}, under);
    ok := p.PrintValue(item, sh, name, j, {item}, under);
    assert p.text == Text(j, format, 0) || !ok;
  }

  /** cJSON_PrintBuffered: the text grows out of a buffer of any size, up to INT_MAX. */
  method PrintBuffered(item: Item, prebuffer: int, format: bool,
                       ghost sh: Shape, ghost name: Option<string>, ghost j: Json) returns (printed: array?<char>)
    requires prebuffer <= INT_MAX && Printable(j)
    requires Stands(sh, TreeOf(name, j)) && sh.node == item
    ensures printed != null <==> prebuffer >= 0 && |Text(j, format, 0)| + 2 <= INT_MAX
    ensures printed != null ==> |Text(j, format, 0)| < printed.Length
    ensures printed != null ==> printed[..|Text(j, format, 0)| + 1] == Text(j, format, 0) + [NUL]
  {
    if prebuffer < 0 {
      return null;
    }
    ghost var under := NodesOf(sh.kids);
    var p := NewPrintBuffer(prebuffer, format, sh, TreeOf(name, j), {item}, under);
    var ok := p.PrintValue(item, sh, name, j, {item}, under);
    assert p.text == Text(j, format, 0) || !ok;
    return if ok then p.buffer else null;
  }

  /** print, behind cJSON_Print and cJSON_PrintUnformatted: the result is just large enough. */
  method Print(item: Item, format: bool, ghost sh: Shape, ghost name: Option<string>, ghost j: Json)
    returns (printed: array?<char>)
    requires Printable(j) && Stands(sh, TreeOf(name, j)) && sh.node == item
    ensures printed != null <==> |Text(j, format, 0)| + 2 <= INT_MAX
    ensures printed != null ==> printed[..] == Text(j, format, 0) + [NUL]
  {
    ghost var under := NodesOf(sh.kids);
    var p := NewPrintBuffer(DEFAULT_BUFFER_SIZE, format, sh, TreeOf(name, j), {item}, under);
    var ok := p.PrintWhole(item, sh, name, j, {item}, under);
    if !ok {
      return null;
    }
    assert p.text == Text(j, format, 0);
    printed := p.Shrink();
  }
}
