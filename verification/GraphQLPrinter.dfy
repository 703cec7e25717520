/** Rendering of nested dictionaries as GraphQL text, line by line. */
module GraphQLPrinter {
  import opened Common
  import Encodings

  /** The values that a dictionary of the SDK holds; a dictionary keeps the order of its entries. */
  datatype Value = Nothing | Text(s: string) | Flag(b: bool) | Number(n: int) | List(items: seq<Value>) | Dict(entries: seq<Entry>)

  datatype Entry = Entry(key: string, value: Value)

  const FILTERS_KEY := "@filters"
  const ALIAS_KEY := "@alias"

  function Lookup(entries: seq<Entry>, key: string): (r: Option<Value>)
    ensures r.Some? ==> exists e :: e in entries && e.key == key && e.value == r.value
  {
    if entries == [] then None
    else if entries[0].key == key then Some(entries[0].value)
    else Lookup(entries[1..], key)
  }

  /** Whether Python takes the value for true. */
  predicate Truthy(v: Value) {
    match v
    case Nothing => false
    case Text(s) => s != ""
    case Flag(b) => b
    case Number(n) => n != 0
    case List(items) => items != []
    case Dict(entries) => entries != []
  }

  /** The alias of a field, if it has one that is used. */
  function AliasOf(entries: seq<Entry>): (r: Option<string>) {
    match Lookup(entries, ALIAS_KEY)
    case Some(Text(s)) => if s != "" then Some(s) else None
    case _ => None
  }

  function FiltersOf(entries: seq<Entry>): seq<Entry> {
    match Lookup(entries, FILTERS_KEY)
    case Some(Dict(filters)) => filters
    case _ => []
  }

  function Spaces(n: nat): (s: string)
    ensures |s| == n && forall c :: c in s ==> c == ' '
  {
    seq(n, _ => ' ')
  }

  // ---------- Values ----------

  /** The values that `convert_to_graphql_as_string` is written for; a dictionary inside a list inside a list is not one. */
  predicate Convertible(v: Value) {
    match v
    case Dict(_) => false
    case List(items) => forall i | i in items :: Convertible(i)
    case _ => true
  }

  /** `convert_to_graphql_as_string` */
  function ConvertToGraphqlAsString(v: Value): string
    requires Convertible(v)
  {
    match v
    case Text(s) => if s != "" && s[0] == '$' then s else "\"" + s + "\""
    case Flag(b) => if b then "true" else "false"
    case List(items) => "[" + ConvertItems(items) + "]"
    case Number(n) => Encodings.Encoded(n, 10, true)
    case Nothing => "None"
  }

  function ConvertItems(items: seq<Value>): string
    requires forall i | i in items :: Convertible(i)
  {
    if items == [] then ""
    else if |items| == 1 then ConvertToGraphqlAsString(items[0])
    else ConvertToGraphqlAsString(items[0]) + ", " + ConvertItems(items[1..])
  }

  function ConvertFilters(filters: seq<Entry>): string
    requires forall e | e in filters :: Convertible(e.value)
  {
    if filters == [] then ""
    else
      var first := filters[0].key + ": " + ConvertToGraphqlAsString(filters[0].value);
      if |filters| == 1 then first else first + ", " + ConvertFilters(filters[1..])
  }

  // ---------- Query blocks ----------

  /** The dictionaries that `render_query_block` is written for: aliases are strings or nothing, filters dictionaries or nothing. */
  predicate Renderable(data: seq<Entry>) {
    forall e | e in data && !Keyword(e.key) && e.value.Dict? :: Blocky(e.value.entries) && Renderable(e.value.entries)
  }

  predicate Keyword(key: string) {
    key == FILTERS_KEY || key == ALIAS_KEY
  }

  predicate Blocky(entries: seq<Entry>) {
    && (match Lookup(entries, ALIAS_KEY) case Some(v) => v.Text? || v.Nothing? case None => true)
    && (match Lookup(entries, FILTERS_KEY) case Some(v) => v.Dict? || v.Nothing? case None => true)
    && (forall e | e in FiltersOf(entries) :: Convertible(e.value))
  }

  function KeyText(key: string, entries: seq<Entry>): string {
    if AliasOf(entries).Some? then AliasOf(entries).value + ": " + key else key
  }

  function OpeningText(key: string, entries: seq<Entry>): string
    requires Blocky(entries)
  {
    KeyText(key, entries) + (if FiltersOf(entries) != [] then "(" + ConvertFilters(FiltersOf(entries)) + ") {" else " {")
  }

  /** The lines of a query block, entry by entry. */
  function QueryLines(data: seq<Entry>, offset: nat, indentation: nat): seq<string>
    requires Renderable(data)
  {
    if data == [] then [] else EntryLines(data[0], offset, indentation) + QueryLines(data[1..], offset, indentation)
  }

  function EntryLines(e: Entry, offset: nat, indentation: nat): seq<string>
    requires Renderable([e])
  {
    if Keyword(e.key) then []
    else
      match e.value
      case Nothing => [Spaces(offset) + e.key]
      case Dict(entries) =>
        assert e in [e];
        if |entries| == 1 && AliasOf(entries).Some? then [Spaces(offset) + KeyText(e.key, entries)]
        else
          [Spaces(offset) + OpeningText(e.key, entries)]
          + QueryLines(entries, offset + indentation, indentation)
          + [Spaces(offset) + "}"]
      case _ => []
  }

  /** `render_query_block` */
  method RenderQueryBlock(data: seq<Entry>, offset: nat := 4, indentation: nat := 4) returns (lines: seq<string>)
    requires Renderable(data)
    ensures lines == QueryLines(data, offset, indentation)
    decreases data, 1
  {
    lines := [];
    for i := 0 to |data|
      invariant lines + QueryLines(data[i..], offset, indentation) == QueryLines(data, offset, indentation)
    {
      assert data[i..][1..] == data[i + 1..];
      assert data[i] in data && Renderable([data[i]]);
      if !Keyword(data[i].key) {
        var more := RenderEntry(data[i], offset, indentation);
        lines := lines + more;
      }
    }
  }

  /** One turn of the loop. */
  method RenderEntry(e: Entry, offset: nat, indentation: nat) returns (lines: seq<string>)
    requires Renderable([e]) && !Keyword(e.key)
    ensures lines == EntryLines(e, offset, indentation)
    decreases e, 0
  {
    assert e in [e];
    lines := [];
    if e.value.Nothing? {
      lines := [Spaces(offset) + e.key];
    } else if e.value.Dict? {
      var value := e.value.entries;
      var alias := Lookup(value, ALIAS_KEY);
      if |value| == 1 && alias.Some? && Truthy(alias.value) {
        lines := [Spaces(offset) + (alias.value.s + ": " + e.key)];
      } else {
        var opening := RenderOpening(e.key, value);
        var inner := RenderQueryBlock(value, offset + indentation, indentation);
        lines := [Spaces(offset) + opening] + inner + [Spaces(offset) + "}"];
      }
    }
  }

  method RenderOpening(key: string, value: seq<Entry>) returns (text: string)
    requires Blocky(value)
    ensures text == OpeningText(key, value)
  {
    var alias := Lookup(value, ALIAS_KEY);
    var filters := Lookup(value, FILTERS_KEY);
    var keyStr := key;
    if alias.Some? && Truthy(alias.value) {
      keyStr := alias.value.s + ": " + key;
    }
    if filters.Some? && Truthy(filters.value) {
      text := keyStr + ("(" + ConvertFilters(filters.value.entries) + ") {");
    } else {
      text := keyStr + " {";
    }
  }

  // ---------- Input blocks ----------

  predicate InputRenderable(data: seq<Entry>) {
    forall e | e in data :: ValueRenderable(e.value)
  }

  predicate ValueRenderable(v: Value) {
    match v
    case Dict(entries) => InputRenderable(entries)
    case List(items) => forall i | i in items :: if i.Dict? then InputRenderable(i.entries) else Convertible(i)
    case _ => true
  }

  /** The lines of an input block, entry by entry. */
  function InputLines(data: seq<Entry>, offset: nat, indentation: nat): seq<string>
    requires InputRenderable(data)
  {
    if data == [] then [] else InputEntryLines(data[0], offset, indentation) + InputLines(data[1..], offset, indentation)
  }

  function InputEntryLines(e: Entry, offset: nat, indentation: nat): seq<string>
    requires ValueRenderable(e.value)
  {
    match e.value
    case Dict(entries) =>
      [Spaces(offset) + e.key + ": {"] + InputLines(entries, offset + indentation, indentation) + [Spaces(offset) + "}"]
    case List(items) =>
      [Spaces(offset) + e.key + ": ["] + ItemLines(items, offset, indentation) + [Spaces(offset) + "]"]
    case _ => [Spaces(offset) + e.key + ": " + ConvertToGraphqlAsString(e.value)]
  }

  function ItemLines(items: seq<Value>, offset: nat, indentation: nat): seq<string>
    requires forall i | i in items :: if i.Dict? then InputRenderable(i.entries) else Convertible(i)
  {
    if items == [] then [] else OneItemLines(items[0], offset, indentation) + ItemLines(items[1..], offset, indentation)
  }

  function OneItemLines(item: Value, offset: nat, indentation: nat): seq<string>
    requires if item.Dict? then InputRenderable(item.entries) else Convertible(item)
  {
    if item.Dict? then
      [Spaces(offset + indentation) + "{"]
      + InputLines(item.entries, offset + indentation + indentation, indentation)
      + [Spaces(offset + indentation) + "},"]
    else [Spaces(offset + indentation) + ConvertToGraphqlAsString(item) + ","]
  }

  /** `render_input_block` */
  method RenderInputBlock(data: seq<Entry>, offset: nat := 4, indentation: nat := 4) returns (lines: seq<string>)
    requires InputRenderable(data)
    ensures lines == InputLines(data, offset, indentation)
    decreases data, 1
  {
    lines := [];
    for i := 0 to |data|
      invariant lines + InputLines(data[i..], offset, indentation) == InputLines(data, offset, indentation)
    {
      assert data[i..][1..] == data[i + 1..];
      var e := data[i];
      ghost var before := lines;
      if e.value.Dict? {
        lines := lines + [Spaces(offset) + e.key + ": {"];
        var inner := RenderInputBlock(e.value.entries, offset + indentation, indentation);
        lines := lines + inner + [Spaces(offset) + "}"];
      } else if e.value.List? {
        lines := lines + [Spaces(offset) + e.key + ": ["];
        var inner := RenderItems(e.value.items, offset, indentation);
        lines := lines + inner + [Spaces(offset) + "]"];
      } else {
        lines := lines + [Spaces(offset) + e.key + ": " + ConvertToGraphqlAsString(e.value)];
      }
      InputStep(data[i..], offset, indentation, before, lines);
    }
  }

  lemma InputStep(data: seq<Entry>, offset: nat, indentation: nat, before: seq<string>, lines: seq<string>)
    requires InputRenderable(data) && data != [] && lines == before + InputEntryLines(data[0], offset, indentation)
    ensures before + InputLines(data, offset, indentation) == lines + InputLines(data[1..], offset, indentation)
  {
  }

  /** The inner loop. */
  method RenderItems(items: seq<Value>, offset: nat, indentation: nat) returns (lines: seq<string>)
    requires forall i | i in items :: if i.Dict? then InputRenderable(i.entries) else Convertible(i)
    ensures lines == ItemLines(items, offset, indentation)
    decreases items, 0
  {
    lines := [];
    for i := 0 to |items|
      invariant lines + ItemLines(items[i..], offset, indentation) == ItemLines(items, offset, indentation)
    {
      assert items[i..][1..] == items[i + 1..];
      var item := items[i];
      ghost var before := lines;
      if item.Dict? {
        var inner := RenderInputBlock(item.entries, offset + indentation + indentation, indentation);
        lines := lines + ([Spaces(offset + indentation) + "{"] + inner + [Spaces(offset + indentation) + "},"]);
      } else {
        lines := lines + [Spaces(offset + indentation) + ConvertToGraphqlAsString(item) + ","];
      }
      ItemStep(items[i..], offset, indentation, before, lines);
    }
  }

  lemma ItemStep(items: seq<Value>, offset: nat, indentation: nat, before: seq<string>, lines: seq<string>)
    requires forall i | i in items :: if i.Dict? then InputRenderable(i.entries) else Convertible(i)
    requires items != [] && lines == before + OneItemLines(items[0], offset, indentation)
    ensures before + ItemLines(items, offset, indentation) == lines + ItemLines(items[1..], offset, indentation)
  {
  }
}
