/** Printing items and parsing the text into new ones (packages/cjson/cJSON.c:1115-1192, 1207-1273). */
module JsonReread {
  import opened Options
  import opened Json
  import opened JsonString
  import opened JsonParse
  import opened JsonPrint
  import opened JsonParser
  import opened JsonRoundTrip
  import opened ChildList
  import opened ItemTrees
  import opened JsonItems

  /** cJSON_Print or cJSON_PrintUnformatted, and then cJSON_ParseWithOpts on the result with null termination
      required: from items that hold a tree to new items that hold the same tree, exactly if its text fits INT_MAX
      and it is nested no deeper than CJSON_NESTING_LIMIT. */
  method PrintThenParse(item: Item, format: bool, ghost sh: Shape, ghost name: Option<string>, ghost j: Json)
    returns (copy: Item?, ghost kids: Shapes)
    requires Printable(j) && Stands(sh, TreeOf(name, j)) && sh.node == item
    ensures copy != null <==> |Text(j, format, 0)| + 2 <= INT_MAX && Height(j) <= CJSON_NESTING_LIMIT
    ensures copy != null ==> Stands(Shape(copy, kids), TreeOf(None, j)) && fresh(Nodes(Shape(copy, kids)))
  {
    copy, kids := null, NoShapes;
    var printed := Print(item, format, sh, name, j);
    if printed != null {
      PrintedTextIsRead(j, format, true);
      var parseEnd;
      copy, parseEnd, kids := ParseWithLengthOpts(printed[..], true);
    }
  }

  /** cJSON_ParseWithOpts, and then cJSON_Print or cJSON_PrintUnformatted: every text that is accepted is
      rewritten in one form, which does not depend on how it was written; its numbers being 32-bit integers and its
      strings free of NUL. */
  method ParseThenPrint(value: string, requireNullTerminated: bool, format: bool) returns (printed: array?<char>)
    requires
      var r := ParseText(value, requireNullTerminated);
      r.Ok? ==> Printable(r.value)
    ensures
      var r := ParseText(value, requireNullTerminated);
      && (printed != null <==> r.Ok? && |Text(r.value, format, 0)| + 2 <= INT_MAX)
      && (printed != null ==>
            printed[..] == Text(r.value, format, 0) + [NUL] && ParseText(printed[..], true) == Ok(r.value, [NUL]))
  {
    printed := null;
    ghost var r := ParseText(value, requireNullTerminated);
    var item, parseEnd, kids := ParseWithLengthOpts(value, requireNullTerminated);
    if item != null {
      ParsedTextSurvivesPrinting(value, requireNullTerminated, format);
      printed := Print(item, format, Shape(item, kids), None, r.value);
    }
  }
}
