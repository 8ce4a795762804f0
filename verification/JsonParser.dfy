/** The cJSON parser as it works on its buffer and builds its tree of items: offsets, loops and links
    (packages/cjson/cJSON.c:241-251, 295-381, 792-919, 1057-1192, 1336-1388, 1465-1560, 1625-1740).  Every
    method is proved to compute what JsonParse says of the text left in the buffer, to stop where it says, and
    to leave new items, linked as they should be, that hold it. */
module JsonParser {
  import opened Options
  import opened Sequences
  import opened Json
  import opened JsonString
  import opened JsonParse
  import opened JsonDecoder
  import opened ChildList
  import opened ItemTrees
  import opened JsonItems

  lemma NumberCharsStep(text: string, i: nat)
    requires i <= |text| && i <= NUMBER_ROOM
    ensures
      if i < |text| && i < NUMBER_ROOM && IsNumberChar(text[i])
      then text[..i + 1] == text[..i] + [text[i]] &&
           text[..i + 1] + NumberChars(text[i + 1..], NUMBER_ROOM - i - 1) == text[..i] + NumberChars(text[i..], NUMBER_ROOM - i)
      else text[..i] + NumberChars(text[i..], NUMBER_ROOM - i) == text[..i]
  {
    if i < |text| {
      assert text[i..][1..] == text[i + 1..];
      assert text[..i + 1] == text[..i] + [text[i]];
    }
  }

  // ------------------------------------------------------------------- the lists

  /** A new element joins the end of the list. */
  function Append(list: Elems, v: Json): Elems {
    if list.NoElems? then Elem(v, NoElems) else Elem(list.head, Append(list.tail, v))
  }

  function Concat(list: Elems, more: Elems): Elems {
    if list.NoElems? then more else Elem(list.head, Concat(list.tail, more))
  }

  lemma {:induction false} ConcatAppend(list: Elems, v: Json, more: Elems)
    ensures Concat(Append(list, v), more) == Concat(list, Elem(v, more))
  {
    if list.Elem? {
      ConcatAppend(list.tail, v, more);
    }
  }

  lemma ConcatNothing(list: Elems)
    ensures Concat(list, NoElems) == list
  {
  }

  function ElemsBefore(list: Elems, r: Result<Elems>): Result<Elems> {
    if r.Ok? then Ok(Concat(list, r.value), r.rest) else r
  }

  /** After an element without a comma */
  function ElemsEnd(s: string): Result<Elems> {
    if s != "" && s[0] == ']' then Ok(NoElems, s[1..]) else Fail(s)
  }

  /** What the loop of parse_array has still to read, at a comma or behind the last element */
  function ElemsLeft(more: bool, s: string, depth: nat): Result<Elems>
    requires more ==> s != ""
  {
    if more then ParseElems(s[1..], depth) else ElemsEnd(s)
  }

  /** One turn of the loop of parse_array moves one element from what is to be read to the list. */
  lemma ElemsBeforeStep(list: Elems, v: Json, s: string, depth: nat)
    requires
      var r := ParseValue(SkipWhitespace(s), depth);
      r.Ok? && r.value == v
    ensures
      var rest := SkipWhitespace(ParseValue(SkipWhitespace(s), depth).rest);
      ElemsBefore(list, ParseElems(s, depth)) == ElemsBefore(Append(list, v),
        if rest != "" && rest[0] == ',' then ParseElems(rest[1..], depth) else ElemsEnd(rest))
  {
    var rest := SkipWhitespace(ParseValue(SkipWhitespace(s), depth).rest);
    ConcatAppend(list, v, NoElems);
    if rest != "" && rest[0] == ',' && ParseElems(rest[1..], depth).Ok? {
      ConcatAppend(list, v, ParseElems(rest[1..], depth).value);
    }
  }

  function AppendMember(list: Members, name: string, v: Json): Members {
    if list.NoMembers? then Member(name, v, NoMembers) else Member(list.key, list.value, AppendMember(list.rest, name, v))
  }

  function ConcatMembers(list: Members, more: Members): Members {
    if list.NoMembers? then more else Member(list.key, list.value, ConcatMembers(list.rest, more))
  }

  lemma {:induction false} ConcatAppendMember(list: Members, name: string, v: Json, more: Members)
    ensures ConcatMembers(AppendMember(list, name, v), more) == ConcatMembers(list, Member(name, v, more))
  {
    if list.Member? {
      ConcatAppendMember(list.rest, name, v, more);
    }
  }

  lemma ConcatNoMembers(list: Members)
    ensures ConcatMembers(list, NoMembers) == list
  {
  }

  function MembersBefore(list: Members, r: Result<Members>): Result<Members> {
    if r.Ok? then Ok(ConcatMembers(list, r.value), r.rest) else r
  }

  /** At a comma, with or without something behind it */
  function MembersAfterComma(s: string, depth: nat): Result<Members>
    requires s != ""
  {
    if |s| == 1 then Fail(s) else ParseMembers(s[1..], depth)
  }

  /** After a member without a comma */
  function MembersEnd(s: string): Result<Members> {
    if s != "" && s[0] == '}' then Ok(NoMembers, s[1..]) else Fail(s)
  }

  function MembersLeft(more: bool, s: string, depth: nat): Result<Members>
    requires more ==> s != ""
  {
    if more then MembersAfterComma(s, depth) else MembersEnd(s)
  }

  lemma MembersBeforeStep(list: Members, name: string, v: Json, s: string, depth: nat)
    requires s != "" && ParseMember(s, depth).Ok? && ParseMember(s, depth).value == (name, v)
    ensures
      var rest := SkipWhitespace(ParseMember(s, depth).rest);
      MembersBefore(list, ParseMembers(s, depth)) == MembersBefore(AppendMember(list, name, v),
        if rest != "" && rest[0] == ',' then MembersAfterComma(rest, depth) else MembersEnd(rest))
  {
    var rest := SkipWhitespace(ParseMember(s, depth).rest);
    ConcatAppendMember(list, name, v, NoMembers);
    if |rest| > 1 && rest[0] == ',' && ParseMembers(rest[1..], depth).Ok? {
      ConcatAppendMember(list, name, v, ParseMembers(rest[1..], depth).value);
    }
  }

  // ------------------------------------------------------------------ the items

  lemma {:induction false} ElemsAppended(list: Elems, v: Json)
    ensures TreesOfElems(Append(list, v)) == AddTree(TreesOfElems(list), TreeOf(None, v))
  {
    if list.Elem? {
      ElemsAppended(list.tail, v);
    }
  }

  lemma {:induction false} MembersAppended(list: Members, name: string, v: Json)
    ensures TreesOfMembers(AppendMember(list, name, v)) == AddTree(TreesOfMembers(list), TreeOf(Some(name), v))
  {
    if list.Member? {
      MembersAppended(list.rest, name, v);
    }
  }

  /** An item with no value yet; it may have a name. */
  predicate Blank(item: Item)
    reads item`child, item`payload
  {
    item.child == null && NoValue(item.payload)
  }

  predicate NoValue(p: Payload) {
    p.text == None && p.whole == 0 && p.number == 0.0
  }

  lemma StringFills(p: Payload, text: string)
    requires NoValue(p)
    ensures p.(kind := 16, text := Some(text)) == TreeOf(p.name, String(text)).payload
  {
  }

  lemma NumberFills(p: Payload, d: real)
    requires NoValue(p)
    ensures NumberPayload(p, d) == TreeOf(p.name, Number(d)).payload
  {
  }

  function NumberPayload(p: Payload, d: real): Payload {
    p.(kind := 8, number := d, whole := ValueInt(d))
  }

  /** An item has got a value that is no array or object. */
  lemma ScalarStands(item: Item, value: Json)
    requires item.child == null && !value.Array? && !value.Object?
    requires item.payload == TreeOf(item.payload.name, value).payload
    ensures Stands(Shape(item, NoShapes), TreeOf(item.payload.name, value))
  {
  }

  /** A new item is linked behind the last one of a list. */
  method NewChild(last: Item?, ghost kids: Shapes, ghost ts: Trees, ghost roots: set<Item>, ghost under: set<Item>)
    returns (newItem: Item)
    requires Growing(kids, ts, roots, under) && last == Last(Roots(kids))
    modifies roots`next
    ensures fresh(newItem) && newItem !in roots + under && Blank(newItem) && newItem.payload.name == None
    ensures AllHold(kids, ts, roots, under) && Strung(Roots(kids) + [newItem])
  {
    RootsAreApart(kids, ts, roots, under);
    RootsAreWithin(kids, roots);
    newItem := NewItemBeside(Roots(kids), kids, ts, roots, under);
    RootsAvoid(kids, under + {newItem});
    LinkBeside(last, newItem, Roots(kids), kids, ts, roots, under);
  }

  method NewItemBeside(ghost s: seq<Item>, ghost kids: Shapes, ghost ts: Trees, ghost roots: set<Item>, ghost under: set<Item>)
    returns (newItem: Item)
    requires Strung(s) && AllHold(kids, ts, roots, under)
    ensures fresh(newItem) && newItem !in roots + under && newItem !in s
    ensures Blank(newItem) && newItem.payload.name == None && newItem.next == null
    ensures Strung(s) && AllHold(kids, ts, roots, under)
  {
    newItem := new Item();
  }

  method LinkBeside(last: Item?, newItem: Item, ghost s: seq<Item>,
                    ghost kids: Shapes, ghost ts: Trees, ghost roots: set<Item>, ghost under: set<Item>)
    requires Strung(s) && last == Last(s) && newItem.next == null && Distinct(s) && newItem !in s
    requires AllHold(kids, ts, roots, under) && newItem !in roots + under && forall x :: x in s ==> x !in under
    modifies newItem`prev, s`next
    ensures Strung(s + [newItem]) && AllHold(kids, ts, roots, under)
  {
    Crosswire(last, newItem, s);
  }

  /** The end of parse_array: the item becomes an array of what has been read. */
  method AdoptElems(item: Item, head: Item?, last: Item?, ghost list: Elems, ghost kids: Shapes,
                    ghost roots: set<Item>, ghost under: set<Item>)
    requires Growing(kids, TreesOfElems(list), roots, under) && item !in roots + under && Blank(item)
    requires head == First(Roots(kids)) && last == Last(Roots(kids))
    modifies item`child, item`payload, roots`prev
    ensures Stands(Shape(item, kids), TreeOf(old(item.payload.name), Array(list))) && NodesOf(kids) == roots + under
  {
    RootsAreNodes(kids);
    Adopt(item, head, last, item.payload.(kind := 32), kids, TreesOfElems(list), roots, under);
  }

  /** The end of parse_object, likewise. */
  method AdoptMembers(item: Item, head: Item?, last: Item?, ghost list: Members, ghost kids: Shapes,
                    ghost roots: set<Item>, ghost under: set<Item>)
    requires Growing(kids, TreesOfMembers(list), roots, under) && item !in roots + under && Blank(item)
    requires head == First(Roots(kids)) && last == Last(Roots(kids))
    modifies item`child, item`payload, roots`prev
    ensures Stands(Shape(item, kids), TreeOf(old(item.payload.name), Object(list))) && NodesOf(kids) == roots + under
  {
    RootsAreNodes(kids);
    Adopt(item, head, last, item.payload.(kind := 64), kids, TreesOfMembers(list), roots, under);
  }

  class ParseBuffer {
    const content: string
    var offset: nat
    var depth: nat

    ghost predicate Valid()
      reads this
    {
      offset <= |content|
    }

    /** The text that is left to read. */
    ghost function Rest(): string
      requires Valid()
      reads this
    {
      content[offset..]
    }

    constructor (content: string)
      ensures Valid() && this.content == content && offset == 0 && depth == 0
    {
      this.content, offset, depth := content, 0, 0;
    }

    /** buffer_skip_whitespace */
    method Skip()
      requires Valid()
      modifies this`offset
      ensures Valid() && Rest() == SkipWhitespace(old(Rest())) && offset >= old(offset)
    {
      if offset >= |content| {
        return;
      }
      while offset < |content| && content[offset] as nat <= 32
        invariant old(offset) <= offset <= |content|
        invariant offset < |content| ==> SkipWhitespace(content[old(offset)..]) == SkipWhitespace(content[offset..])
        invariant offset == |content| ==> SkipWhitespace(content[old(offset)..]) == content[offset - 1..] && offset > old(offset)
        decreases |content| - offset
      {
        assert content[offset..][1..] == content[offset + 1..];
        offset := offset + 1;
      }
      if offset == |content| {
        offset := offset - 1;
      }
    }

    /** can_access_at_index(0), and what is there */
    predicate Sees(c: char)
      requires Valid()
      reads this
      ensures Sees(c) <==> Rest() != "" && Rest()[0] == c
    {
      offset < |content| && content[offset] == c
    }

    /** Onto the character in front */
    method StepBack()
      requires Valid() && offset > 0
      modifies this`offset
      ensures Valid() && Rest() != "" && Rest()[1..] == old(Rest()) && offset == old(offset) - 1
    {
      offset := offset - 1;
      assert Rest()[1..] == content[offset + 1..];
    }

    method AdvanceBy(n: nat)
      requires Valid() && n <= |Rest()|
      modifies this`offset
      ensures Valid() && Rest() == old(Rest())[n..] && offset == old(offset) + n
    {
      assert Rest()[n..] == content[offset + n..];
      offset := offset + n;
    }

    method Advance()
      requires Valid() && Rest() != ""
      modifies this`offset
      ensures Valid() && Rest() == old(Rest())[1..] && offset == old(offset) + 1
    {
      AdvanceBy(1);
    }

    /** Into an array or object, behind its bracket and the blanks after that */
    method Enter()
      requires Valid() && Rest() != ""
      modifies this`offset, this`depth
      ensures Valid() && Rest() == SkipWhitespace(old(Rest())[1..]) && offset > old(offset) && depth == old(depth) + 1
    {
      depth := depth + 1;
      Advance();
      Skip();
    }

    method Leave()
      requires Valid() && Rest() != "" && depth > 0
      modifies this`offset, this`depth
      ensures Valid() && Rest() == old(Rest())[1..] && depth == old(depth) - 1
    {
      depth := depth - 1;
      Advance();
    }

    /** skip_utf8_bom */
    method SkipBom()
      requires Valid() && offset == 0
      modifies this`offset
      ensures Valid() && Rest() == JsonParse.SkipBom(old(Rest()))
    {
      if offset + 4 < |content| && content[offset..offset + 3] == BOM {
        offset := offset + 3;
      }
    }

    /** parse_string; positions are counted from the offset. */
    method ReadString(item: Item) returns (ok: bool)
      requires Valid() && Rest() != ""
      modifies this`offset, item`payload
      ensures Valid()
      ensures
        var r := ParseString(old(Rest()));
        && Rest() == r.rest && (ok <==> r.Ok?)
        && item.payload == if ok then old(item.payload).(kind := 16, text := Some(r.value)) else old(item.payload)
    {
      var s := content[offset..];
      if s[0] != '"' {
        Advance();
        return false;
      }
      var inputEnd, skipped;
      ok, inputEnd, skipped := FindEnd(s);
      if !ok {
        Advance();
        return;
      }
      var output := new char[inputEnd - skipped + 1];
      var inputPointer, length;
      ok, inputPointer, length := DecodeString(s, inputEnd, output);
      if !ok {
        AdvanceBy(inputPointer);
        return;
      }
      item.payload := item.payload.(kind := 16, text := Some(CString(output[..length])));
      AdvanceBy(inputEnd + 1);
    }

    /** The copying loop of parse_number */
    method CopyNumber() returns (numberString: string)
      requires Valid()
      ensures numberString == NumberChars(Rest(), NUMBER_ROOM)
    {
      ghost var text := Rest();
      assert text[..0] + NumberChars(text[0..], NUMBER_ROOM) == NumberChars(text, NUMBER_ROOM);
      var i := 0;
      numberString := "";
      while i < NUMBER_ROOM && offset + i < |content| && IsNumberChar(content[offset + i])
        invariant i <= NUMBER_ROOM && i <= |text| && numberString == text[..i]
        invariant text[..i] + NumberChars(text[i..], NUMBER_ROOM - i) == NumberChars(text, NUMBER_ROOM)
        decreases NUMBER_ROOM - i
      {
        NumberCharsStep(text, i);
        numberString := numberString + [content[offset + i]];
        i := i + 1;
      }
      NumberCharsStep(text, i);
    }

    /** parse_number; strtod is the function of that name. */
    method ReadNumber(item: Item) returns (ok: bool)
      requires Valid()
      modifies this`offset, item`payload
      ensures Valid()
      ensures
        var r := ParseNumber(old(Rest()));
        && Rest() == r.rest && (ok <==> r.Ok?)
        && (ok ==> r.value.Number? && item.payload == NumberPayload(old(item.payload), r.value.value))
    {
      var numberString := CopyNumber();
      var number := Strtod(numberString);
      if number.length == 0 {
        return false;
      }
      var whole: int;
      if number.value >= INT_MAX as real {
        whole := INT_MAX;
      } else if number.value <= INT_MIN as real {
        whole := INT_MIN;
      } else {
        whole := Truncated(number.value);
      }
      item.payload := item.payload.(kind := 8, number := number.value, whole := whole);
      AdvanceBy(number.length);
      return true;
    }

    /** can_read and strncmp against a literal */
    predicate Reads(literal: string)
      requires Valid()
      ensures Reads(literal) <==> literal <= Rest()
      reads this
    {
      assert offset + |literal| <= |content| ==> Rest()[..|literal|] == content[offset..offset + |literal|];
      offset + |literal| <= |content| && content[offset..offset + |literal|] == literal
    }

    /** What parse_value does first */
    method ReadWord(item: Item) returns (ok: bool, ghost value: Json)
      requires Valid() && Blank(item)
      modifies this`offset, item`payload
      ensures Valid()
      ensures
        var r := ParseWord(old(Rest()));
        && Rest() == r.rest && (ok <==> r.Ok?) && (ok ==> value == r.value)
        && item.payload == if ok then TreeOf(old(item.payload.name), value).payload else old(item.payload)
    {
      ok, value := true, Null;
      if Reads("null") {
        item.payload := item.payload.(kind := 4);
        AdvanceBy(4);
      } else if Reads("false") {
        value := False;
        item.payload := item.payload.(kind := 1);
        AdvanceBy(5);
      } else if Reads("true") {
        value := True;
        item.payload := item.payload.(kind := 2, whole := 1);
        AdvanceBy(4);
      } else {
        ok := false;
      }
    }

    /** What parse_value does with anything but arrays and objects */
    method ReadScalar(item: Item) returns (ok: bool, ghost value: Json)
      requires Valid() && Blank(item)
      modifies this`offset, item`payload
      ensures Valid()
      ensures
        var r := ParseScalar(old(Rest()));
        && Rest() == r.rest && (ok <==> r.Ok?)
        && (ok ==> value == r.value && !value.Array? && !value.Object?)
        && (ok ==> item.payload == TreeOf(old(item.payload.name), value).payload)
    {
      ok, value := ReadWord(item);
      if ok {
        return;
      }
      ghost var r := ParseScalar(Rest());
      value := if r.Ok? then r.value else Null;
      if Sees('"') {
        ok := ReadString(item);
        if ok {
          StringFills(old(item.payload), value.text);
        }
      } else if offset < |content| && (content[offset] == '-' || IsDigit(content[offset])) {
        ok := ReadNumber(item);
        if ok {
          NumberFills(old(item.payload), value.value);
        }
      }
    }

    /** parse_value, into an item that is blank */
    method ReadValue(item: Item) returns (ok: bool, ghost value: Json, ghost sh: Shape)
      requires Valid() && Blank(item)
      modifies this`offset, this`depth, item`child, item`payload
      ensures Valid()
      ensures
        var r := ParseValue(old(Rest()), old(depth));
        && (ok <==> r.Ok?) && Rest() == r.rest
        && (ok ==> value == r.value && depth == old(depth))
      ensures
        ok ==>
          && sh.node == item && Stands(sh, TreeOf(old(item.payload.name), value))
          && fresh(NodesOf(sh.kids))
      decreases |content| - offset, 6
    {
      if Sees('[') {
        ok, value, sh := ReadArray(item);
      } else if Sees('{') {
        ok, value, sh := ReadObject(item);
      } else {
        ok, value := ReadScalar(item);
        sh := Shape(item, NoShapes);
        if ok {
          ScalarStands(item, value);
        }
      }
    }

    /** parse_array */
    method ReadArray(item: Item) returns (ok: bool, ghost value: Json, ghost sh: Shape)
      requires Valid() && Sees('[') && Blank(item)
      modifies this`offset, this`depth, item`child, item`payload
      ensures Valid()
      ensures
        var r := ParseArray(old(Rest()), old(depth));
        && (ok <==> r.Ok?) && Rest() == r.rest
        && (ok ==> value == r.value && depth == old(depth))
      ensures
        ok ==>
          && sh.node == item && Stands(sh, TreeOf(old(item.payload.name), value))
          && fresh(NodesOf(sh.kids))
      decreases |content| - offset, 5
    {
      ok, value, sh := false, Null, Shape(item, NoShapes);
      if depth >= CJSON_NESTING_LIMIT {
        return;
      }
      Enter();
      if Sees(']') {
        Leave();
        item.payload := item.payload.(kind := 32);
        return true, Array(NoElems), sh;
      }
      if offset >= |content| {
        offset := offset - 1;
        return;
      }
      ok, value, sh := ReadElemsOfArray(item);
    }

    method ReadElemsOfArray(item: Item) returns (ok: bool, ghost value: Json, ghost sh: Shape)
      requires Valid() && Rest() != "" && offset > 0 && depth > 0 && Blank(item)
      modifies this`offset, this`depth, item`child, item`payload
      ensures Valid()
      ensures
        var r := ParseElems(old(Rest()), old(depth));
        && (ok <==> r.Ok?) && Rest() == r.rest
        && (ok ==> value == Array(r.value) && depth == old(depth) - 1)
      ensures
        ok ==>
          && sh.node == item && Stands(sh, TreeOf(old(item.payload.name), value))
          && fresh(NodesOf(sh.kids))
      decreases |content| - (offset - 1), 4
    {
      value := Null;
      StepBack();
      var head, last;
      ghost var list, kids, roots, under;
      ok, head, last, list, kids, roots, under := ReadElems();
      sh := Shape(item, kids);
      if ok {
        depth := depth - 1;
        value := Array(list);
        AdoptElems(item, head, last, list, kids, roots, under);
      }
    }

    /** One turn of the loop of parse_array, from the character in front of an element */
    method ReadElem(last: Item?, ghost list: Elems, ghost kids: Shapes, ghost roots: set<Item>, ghost under: set<Item>)
      returns (ok: bool, newItem: Item, more: bool, ghost v: Json, ghost c: Shape)
      requires Valid() && Rest() != ""
      requires Growing(kids, TreesOfElems(list), roots, under) && last == Last(Roots(kids))
      modifies this`offset, this`depth, roots`next
      ensures Valid()
      ensures !ok ==> ElemsLeft(true, old(Rest()), old(depth)) == Fail(Rest())
      ensures
        ok ==>
          && depth == old(depth) && offset > old(offset) && (more ==> Rest() != "")
          && ElemsBefore(list, ElemsLeft(true, old(Rest()), depth)) ==
             ElemsBefore(Append(list, v), ElemsLeft(more, Rest(), depth))
      ensures fresh(newItem)
      ensures
        ok ==>
          && Growing(AddShape(kids, c), TreesOfElems(Append(list, v)), roots + {newItem}, under + NodesOf(c.kids))
          && fresh(NodesOf(c.kids)) && Roots(AddShape(kids, c)) == Roots(kids) + [newItem]
      decreases |content| - offset, 2
    {
      newItem := NewChild(last, kids, TreesOfElems(list), roots, under);
      ok, more, v, c := ReadElemBeside(newItem, Roots(kids) + [newItem], kids, TreesOfElems(list), roots, under);
      if ok {
        ElemsAppended(list, v);
        AddedNodes(kids, c);
        RootsAreNodes(kids);
        OneMoreChild(kids, TreesOfElems(list), roots, under, c, TreeOf(None, v));
        ElemsBeforeStep(list, v, old(Rest())[1..], depth);
      }
    }

    /** The part of it behind the allocation: the value goes into the new child. */
    method ReadElemInto(newItem: Item) returns (ok: bool, more: bool, ghost v: Json, ghost c: Shape)
      requires Valid() && Rest() != "" && Blank(newItem)
      modifies this`offset, this`depth, newItem`child, newItem`payload
      ensures Valid()
      ensures
        var r := ParseValue(SkipWhitespace(old(Rest())[1..]), old(depth));
        && (ok <==> r.Ok?)
        && (!ok ==> Rest() == r.rest)
        && (ok ==> v == r.value && Rest() == SkipWhitespace(r.rest) && depth == old(depth) && offset > old(offset))
      ensures more <==> ok && Rest() != "" && Rest()[0] == ','
      ensures ok ==> c.node == newItem && Stands(c, TreeOf(old(newItem.payload.name), v)) && fresh(NodesOf(c.kids))
      decreases |content| - offset, 0
    {
      Advance();
      Skip();
      ok, v, c := ReadValue(newItem);
      if ok {
        SkipBeside(c, TreeOf(old(newItem.payload.name), v), {c.node}, NodesOf(c.kids));
      }
      more := ok && Sees(',');
    }

    method SkipBeside(ghost c: Shape, ghost t: Tree, ghost root: set<Item>, ghost below: set<Item>)
      requires Valid() && Holds(c, t, root, below)
      modifies this`offset
      ensures Valid() && Rest() == SkipWhitespace(old(Rest())) && offset >= old(offset) && Holds(c, t, root, below)
    {
      Skip();
    }

    /** It does not concern the children that were there before. */
    method ReadElemBeside(newItem: Item, ghost s: seq<Item>,
                          ghost kids: Shapes, ghost ts: Trees, ghost roots: set<Item>, ghost under: set<Item>)
      returns (ok: bool, more: bool, ghost v: Json, ghost c: Shape)
      requires Valid() && Rest() != "" && Blank(newItem)
      requires newItem !in roots + under && AllHold(kids, ts, roots, under) && Strung(s)
      modifies this`offset, this`depth, newItem`child, newItem`payload
      ensures Valid()
      ensures
        var r := ParseValue(SkipWhitespace(old(Rest())[1..]), old(depth));
        && (ok <==> r.Ok?)
        && (!ok ==> Rest() == r.rest)
        && (ok ==> v == r.value && Rest() == SkipWhitespace(r.rest) && depth == old(depth) && offset > old(offset))
      ensures more <==> ok && Rest() != "" && Rest()[0] == ','
      ensures ok ==> c.node == newItem && Stands(c, TreeOf(old(newItem.payload.name), v)) && fresh(NodesOf(c.kids))
      ensures ok ==> NodesOf(c.kids) !! roots + under
      ensures AllHold(kids, ts, roots, under) && Strung(s)
      decreases |content| - offset, 1
    {
      ok, more, v, c := ReadElemInto(newItem);
    }

    /** The loop of parse_array, from the character in front of the first element to behind the bracket */
    method ReadElems()
      returns (ok: bool, head: Item?, current: Item?,
               ghost list: Elems, ghost kids: Shapes, ghost roots: set<Item>, ghost under: set<Item>)
      requires Valid() && Rest() != ""
      modifies this`offset, this`depth
      ensures Valid()
      ensures
        var r := ParseElems(old(Rest())[1..], old(depth));
        && (ok <==> r.Ok?) && Rest() == r.rest
        && (ok ==> list == r.value && depth == old(depth))
      ensures
        ok ==>
          && Growing(kids, TreesOfElems(list), roots, under) && fresh(roots) && fresh(under)
          && head == First(Roots(kids)) && current == Last(Roots(kids))
      decreases |content| - offset, 3
    {
      ghost var r := ParseElems(Rest()[1..], depth);
      head, current, list, kids, roots, under := null, null, NoElems, NoShapes, {}, {};
      var more := true;
      while more
        invariant Valid() && old(offset) <= offset && depth == old(depth) && (more ==> Rest() != "")
        invariant r == ElemsBefore(list, ElemsLeft(more, Rest(), depth))
        invariant Growing(kids, TreesOfElems(list), roots, under) && fresh(roots) && fresh(under)
        invariant head == First(Roots(kids)) && current == Last(Roots(kids))
        decreases more, |content| - offset
      {
        ghost var v, c;
        var newItem;
        ok, newItem, more, v, c := ReadElem(current, list, kids, roots, under);
        if !ok {
          return;
        }
        head, current := if head == null then newItem else head, newItem;
        list, kids, roots, under := Append(list, v), AddShape(kids, c), roots + {newItem}, under + NodesOf(c.kids);
      }
      ConcatNothing(list);
      ok := Sees(']');
      if ok {
        Advance();
      }
    }

    /** parse_string, for the name of a member, from the character in front of it */
    method ReadKey(item: Item) returns (ok: bool)
      requires Valid() && |Rest()| > 1
      modifies this`offset, item`payload
      ensures Valid()
      ensures
        var r := ParseString(SkipWhitespace(old(Rest())[1..]));
        && Rest() == r.rest && (ok <==> r.Ok?)
        && item.payload == if ok then old(item.payload).(kind := 16, text := Some(r.value)) else old(item.payload)
    {
      Advance();
      Skip();
      ok := ReadString(item);
    }

    /** The name and the colon of a member: the text that was read becomes the name. */
    method ReadName(item: Item) returns (ok: bool)
      requires Valid() && |Rest()| > 1
      modifies this`offset, item`payload
      ensures Valid()
      ensures
        var r := ParseName(old(Rest())[1..]);
        && Rest() == r.rest && (ok <==> r.Ok?)
        && (ok ==> item.payload == old(item.payload).(kind := 16, text := None, name := Some(r.value)))
    {
      ok := ReadKey(item);
      if !ok {
        return;
      }
      Skip();
      item.payload := item.payload.(name := item.payload.text, text := None);
      if !Sees(':') {
        return false;
      }
      Advance();
      Skip();
    }

    /** One turn of the loop of parse_object, from the character in front of a member */
    method ReadMember(last: Item?, ghost list: Members, ghost kids: Shapes, ghost roots: set<Item>, ghost under: set<Item>)
      returns (ok: bool, newItem: Item, more: bool, ghost name: string, ghost v: Json, ghost c: Shape)
      requires Valid() && Rest() != ""
      requires Growing(kids, TreesOfMembers(list), roots, under) && last == Last(Roots(kids))
      modifies this`offset, this`depth, roots`next
      ensures Valid()
      ensures !ok ==> MembersLeft(true, old(Rest()), old(depth)) == Fail(Rest())
      ensures
        ok ==>
          && depth == old(depth) && offset > old(offset) && (more ==> Rest() != "")
          && MembersBefore(list, MembersLeft(true, old(Rest()), depth)) ==
             MembersBefore(AppendMember(list, name, v), MembersLeft(more, Rest(), depth))
      ensures fresh(newItem)
      ensures
        ok ==>
          && Growing(AddShape(kids, c), TreesOfMembers(AppendMember(list, name, v)), roots + {newItem}, under + NodesOf(c.kids))
          && fresh(NodesOf(c.kids)) && Roots(AddShape(kids, c)) == Roots(kids) + [newItem]
      decreases |content| - offset, 2
    {
      newItem := NewChild(last, kids, TreesOfMembers(list), roots, under);
      more, name, v, c := false, "", Null, Shape(newItem, NoShapes);
      if offset + 1 >= |content| {
        return false, newItem, more, name, v, c;
      }
      ok, more, name, v, c := ReadMemberBeside(newItem, Roots(kids) + [newItem], kids, TreesOfMembers(list), roots, under);
      if ok {
        MembersAppended(list, name, v);
        AddedNodes(kids, c);
        RootsAreNodes(kids);
        OneMoreChild(kids, TreesOfMembers(list), roots, under, c, TreeOf(Some(name), v));
        MembersBeforeStep(list, name, v, old(Rest())[1..], depth);
      }
    }

    /** The part of it behind the allocation: name and value go into the new child. */
    method ReadMemberInto(newItem: Item) returns (ok: bool, more: bool, ghost name: string, ghost v: Json, ghost c: Shape)
      requires Valid() && |Rest()| > 1 && Blank(newItem)
      modifies this`offset, this`depth, newItem`child, newItem`payload
      ensures Valid()
      ensures
        var r := ParseMember(old(Rest())[1..], old(depth));
        && (ok <==> r.Ok?)
        && (!ok ==> Rest() == r.rest)
        && (ok ==> (name, v) == r.value && Rest() == SkipWhitespace(r.rest) && depth == old(depth) && offset > old(offset))
      ensures more <==> ok && Rest() != "" && Rest()[0] == ','
      ensures ok ==> c.node == newItem && Stands(c, TreeOf(Some(name), v)) && fresh(NodesOf(c.kids))
      decreases |content| - offset, 0
    {
      more, name, v, c := false, "", Null, Shape(newItem, NoShapes);
      ok := ReadName(newItem);
      if !ok {
        return;
      }
      name := newItem.payload.name.value;
      ok, v, c := ReadValue(newItem);
      if ok {
        SkipBeside(c, TreeOf(Some(name), v), {c.node}, NodesOf(c.kids));
      }
      more := ok && Sees(',');
    }

    /** It does not concern the children that were there before. */
    method ReadMemberBeside(newItem: Item, ghost s: seq<Item>,
                            ghost kids: Shapes, ghost ts: Trees, ghost roots: set<Item>, ghost under: set<Item>)
      returns (ok: bool, more: bool, ghost name: string, ghost v: Json, ghost c: Shape)
      requires Valid() && |Rest()| > 1 && Blank(newItem)
      requires newItem !in roots + under && AllHold(kids, ts, roots, under) && Strung(s)
      modifies this`offset, this`depth, newItem`child, newItem`payload
      ensures Valid()
      ensures
        var r := ParseMember(old(Rest())[1..], old(depth));
        && (ok <==> r.Ok?)
        && (!ok ==> Rest() == r.rest)
        && (ok ==> (name, v) == r.value && Rest() == SkipWhitespace(r.rest) && depth == old(depth) && offset > old(offset))
      ensures more <==> ok && Rest() != "" && Rest()[0] == ','
      ensures ok ==> c.node == newItem && Stands(c, TreeOf(Some(name), v)) && fresh(NodesOf(c.kids))
      ensures ok ==> NodesOf(c.kids) !! roots + under
      ensures AllHold(kids, ts, roots, under) && Strung(s)
      decreases |content| - offset, 1
    {
      ok, more, name, v, c := ReadMemberInto(newItem);
    }

    /** The loop of parse_object, from the character in front of the first name to behind the brace */
    method ReadMembers()
      returns (ok: bool, head: Item?, current: Item?,
               ghost list: Members, ghost kids: Shapes, ghost roots: set<Item>, ghost under: set<Item>)
      requires Valid() && |Rest()| > 1
      modifies this`offset, this`depth
      ensures Valid()
      ensures
        var r := ParseMembers(old(Rest())[1..], old(depth));
        && (ok <==> r.Ok?) && Rest() == r.rest
        && (ok ==> list == r.value && depth == old(depth))
      ensures
        ok ==>
          && Growing(kids, TreesOfMembers(list), roots, under) && fresh(roots) && fresh(under)
          && head == First(Roots(kids)) && current == Last(Roots(kids))
      decreases |content| - offset, 3
    {
      ghost var r := ParseMembers(Rest()[1..], depth);
      head, current, list, kids, roots, under := null, null, NoMembers, NoShapes, {}, {};
      var more := true;
      while more
        invariant Valid() && old(offset) <= offset && depth == old(depth) && (more ==> Rest() != "")
        invariant r == MembersBefore(list, MembersLeft(more, Rest(), depth))
        invariant Growing(kids, TreesOfMembers(list), roots, under) && fresh(roots) && fresh(under)
        invariant head == First(Roots(kids)) && current == Last(Roots(kids))
        decreases more, |content| - offset
      {
        ghost var name, v, c;
        var newItem;
        ok, newItem, more, name, v, c := ReadMember(current, list, kids, roots, under);
        if !ok {
          return;
        }
        head, current := if head == null then newItem else head, newItem;
        list, kids, roots, under :=
          AppendMember(list, name, v), AddShape(kids, c), roots + {newItem}, under + NodesOf(c.kids);
      }
      ConcatNoMembers(list);
      ok := Sees('}');
      if ok {
        Advance();
      }
    }

    /** parse_object */
    method ReadObject(item: Item) returns (ok: bool, ghost value: Json, ghost sh: Shape)
      requires Valid() && Sees('{') && Blank(item)
      modifies this`offset, this`depth, item`child, item`payload
      ensures Valid()
      ensures
        var r := ParseObject(old(Rest()), old(depth));
        && (ok <==> r.Ok?) && Rest() == r.rest
        && (ok ==> value == r.value && depth == old(depth))
      ensures
        ok ==>
          && sh.node == item && Stands(sh, TreeOf(old(item.payload.name), value))
          && fresh(NodesOf(sh.kids))
      decreases |content| - offset, 5
    {
      ok, value, sh := false, Null, Shape(item, NoShapes);
      if depth >= CJSON_NESTING_LIMIT {
        return;
      }
      Enter();
      if Sees('}') {
        Leave();
        item.payload := item.payload.(kind := 64);
        return true, Object(NoMembers), sh;
      }
      if offset >= |content| {
        offset := offset - 1;
        return;
      }
      ok, value, sh := ReadMembersOfObject(item);
    }

    method ReadMembersOfObject(item: Item) returns (ok: bool, ghost value: Json, ghost sh: Shape)
      requires Valid() && Rest() != "" && offset > 0 && depth > 0 && Blank(item)
      modifies this`offset, this`depth, item`child, item`payload
      ensures Valid()
      ensures
        var r := ParseMembers(old(Rest()), old(depth));
        && (ok <==> r.Ok?) && Rest() == r.rest
        && (ok ==> value == Object(r.value) && depth == old(depth) - 1)
      ensures
        ok ==>
          && sh.node == item && Stands(sh, TreeOf(old(item.payload.name), value))
          && fresh(NodesOf(sh.kids))
      decreases |content| - (offset - 1), 4
    {
      value := Null;
      StepBack();
      var head, last;
      ghost var list, kids, roots, under;
      ok, head, last, list, kids, roots, under := ReadMembers();
      sh := Shape(item, kids);
      if ok {
        depth := depth - 1;
        value := Object(list);
        AdoptMembers(item, head, last, list, kids, roots, under);
      }
    }

    /** The value at the beginning of a text */
    method ReadRoot(root: Item) returns (ok: bool, ghost value: Json, ghost sh: Shape)
      requires Valid() && offset == 0 && depth == 0 && Rest() != "" && Blank(root)
      modifies this`offset, this`depth, root`child, root`payload
      ensures Valid()
      ensures
        var r := ParseText(old(Rest()), false);
        (ok <==> r.Ok?) && Rest() == r.rest && (ok ==> value == r.value)
      ensures ok ==> sh.node == root && Stands(sh, TreeOf(old(root.payload.name), value)) && fresh(NodesOf(sh.kids))
    {
      SkipBom();
      Skip();
      ok, value, sh := ReadValue(root);
    }

    /** A whole text, from its beginning on */
    method ReadText(root: Item, requireNullTerminated: bool) returns (ok: bool, ghost sh: Shape)
      requires Valid() && offset == 0 && depth == 0 && Rest() != "" && Blank(root)
      modifies this`offset, this`depth, root`child, root`payload
      ensures Valid()
      ensures
        var r := ParseText(old(Rest()), requireNullTerminated);
        && (ok <==> r.Ok?) && Rest() == r.rest
        && (ok ==> sh.node == root && Stands(sh, TreeOf(old(root.payload.name), r.value)) && fresh(NodesOf(sh.kids)))
    {
      ghost var value;
      ok, value, sh := ReadRoot(root);
      if ok && requireNullTerminated {
        SkipBeside(sh, TreeOf(old(root.payload.name), value), {root}, NodesOf(sh.kids));
        ok := Sees(NUL);
      }
    }
  }

  /** cJSON_ParseWithLengthOpts on a text of any length, its bytes given: new items that hold the tree, or none,
      and where *return_parse_end points, which is inside the text. */
  method ParseWithLengthOpts(value: string, requireNullTerminated: bool)
    returns (item: Item?, parseEnd: nat, ghost kids: Shapes)
    ensures
      var r := ParseText(value, requireNullTerminated);
      && (item != null <==> r.Ok?)
      && (item != null ==> Stands(Shape(item, kids), TreeOf(None, r.value)) && fresh(Nodes(Shape(item, kids))))
      && (r.rest != "" || r.Ok? ==> parseEnd == |value| - |r.rest|)
      && (r.rest == "" && r.Fail? ==> parseEnd == if value == "" then 0 else |value| - 1)
    ensures item != null && requireNullTerminated ==> parseEnd < |value| && value[parseEnd] == NUL
  {
    item, parseEnd, kids := null, 0, NoShapes;
    if value == "" {
      return;
    }
    var buffer := new ParseBuffer(value);
    var root := new Item();
    var ok;
    ghost var sh;
    ok, sh := buffer.ReadText(root, requireNullTerminated);
    if ok {
      item, parseEnd, kids := root, buffer.offset, sh.kids;
    } else if buffer.offset < |value| {
      parseEnd := buffer.offset;
    } else {
      parseEnd := |value| - 1;
    }
  }
}
