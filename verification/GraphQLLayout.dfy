/** The layout of rendered blocks: brackets balance, and each line is indented by its depth. */
module GraphQLLayout {
  import opened Common
  import opened GraphQLPrinter
  import opened GraphQLReader
  import opened GraphQLSafety
  import opened GraphQLRoundTrip

  function Leading(line: string): (n: nat)
    ensures n <= |line|
  {
    if line == "" || line[0] != ' ' then 0 else 1 + Leading(line[1..])
  }

  /** The line starts by closing a bracket. */
  predicate Closes(line: string) {
    Leading(line) < |line| && line[Leading(line)] in "}]"
  }

  /** The line ends by opening a bracket. */
  predicate Opens(line: string) {
    line != "" && line[|line| - 1] in "{["
  }

  /** The depth after the lines, starting at a depth; None if a line closes what is not open or is not indented by its depth. */
  function Walk(lines: seq<string>, depth: nat, offset: nat, indentation: nat): Option<nat> {
    if lines == [] then Some(depth)
    else
      var line := lines[0];
      if Closes(line) && depth == 0 then None
      else
        var d := if Closes(line) then depth - 1 else depth;
        if Leading(line) != Column(d, offset, indentation) then None
        else Walk(lines[1..], if Opens(line) then d + 1 else d, offset, indentation)
  }

  function Column(depth: nat, offset: nat, indentation: nat): nat {
    offset + depth * indentation
  }

  lemma ColumnOfNext(depth: nat, offset: nat, indentation: nat)
    ensures Column(depth + 1, offset, indentation) == Column(depth, offset, indentation) + indentation
  {
  }

  lemma {:induction false} WalkParts(a: seq<string>, b: seq<string>, depth: nat, middle: nat, offset: nat, indentation: nat)
    requires Walk(a, depth, offset, indentation) == Some(middle)
    ensures Walk(a + b, depth, offset, indentation) == Walk(b, middle, offset, indentation)
  {
    if a == [] {
      assert a + b == b;
    } else {
      var d := if Closes(a[0]) then depth - 1 else depth;
      assert (a + b)[1..] == a[1..] + b;
      WalkParts(a[1..], b, if Opens(a[0]) then d + 1 else d, middle, offset, indentation);
    }
  }

  lemma {:induction false} LeadingOf(n: nat, content: string)
    requires content != "" && content[0] != ' '
    ensures Leading(Spaces(n) + content) == n
  {
    var line := Spaces(n) + content;
    if n > 0 {
      LeadingOf(n - 1, content);
      assert line[1..] == Spaces(n - 1) + content;
    } else {
      assert line == content;
    }
  }

  /** A line at the column of its depth. */
  lemma WalkLine(content: string, depth: nat, d: nat, offset: nat, indentation: nat)
    requires content != "" && content[0] != ' '
    requires if content[0] in "}]" then d + 1 == depth else d == depth
    ensures Walk([Spaces(Column(d, offset, indentation)) + content], depth, offset, indentation)
         == Some(if content[|content| - 1] in "{[" then d + 1 else d)
  {
    var line := Spaces(Column(d, offset, indentation)) + content;
    LeadingOf(Column(d, offset, indentation), content);
    assert line[Column(d, offset, indentation)] == content[0] && line[|line| - 1] == content[|content| - 1];
    var after: seq<string> := [line][1..];
    assert after == [];
  }

  /** Lines that open a bracket, hold balanced lines one level deeper and close it. */
  lemma WalkEnclosed(opening: string, inner: seq<string>, closing: string, depth: nat, offset: nat, indentation: nat)
    requires opening != "" && opening[0] !in " }]" && opening[|opening| - 1] in "{["
    requires closing != "" && closing[0] in "}]" && closing[|closing| - 1] !in "{["
    requires Walk(inner, depth + 1, offset, indentation) == Some(depth + 1)
    ensures var column := Column(depth, offset, indentation);
            Walk([Spaces(column) + opening] + inner + [Spaces(column) + closing], depth, offset, indentation) == Some(depth)
  {
    var column := Column(depth, offset, indentation);
    WalkLine(opening, depth, depth, offset, indentation);
    WalkLine(closing, depth + 1, depth, offset, indentation);
    WalkParts([Spaces(column) + opening], inner, depth, depth + 1, offset, indentation);
    WalkParts([Spaces(column) + opening] + inner, [Spaces(column) + closing], depth, depth + 1, offset, indentation);
  }

  lemma KeyTextEnds(key: string, entries: seq<Entry>)
    requires (IsName(key) || IsFragment(key)) && (AliasOf(entries).Some? ==> IsName(AliasOf(entries).value))
    ensures var t := KeyText(key, entries); t != "" && t[0] !in " }]" && t[|t| - 1] !in "{["
  {
    var t := KeyText(key, entries);
    assert t[|t| - 1] == key[|key| - 1];
    if IsFragment(key) {
      var name := key[|ON|..];
      assert key[0] == ON[0] && key[|key| - 1] == name[|name| - 1];
      assert name[|name| - 1] in name;
    } else {
      assert key[0] in key && key[|key| - 1] in key;
    }
    if AliasOf(entries).Some? {
      assert t[0] == AliasOf(entries).value[0] && AliasOf(entries).value[0] in AliasOf(entries).value;
    }
  }

  lemma {:induction false} QueryWalk(data: seq<Entry>, depth: nat, offset: nat, indentation: nat)
    requires Renderable(data) && QuerySafe(data)
    ensures Walk(QueryLines(data, Column(depth, offset, indentation), indentation), depth, offset, indentation) == Some(depth)
    decreases data, 1
  {
    if data != [] {
      var column := Column(depth, offset, indentation);
      EntryWalk(data[0], depth, offset, indentation);
      QueryWalk(data[1..], depth, offset, indentation);
      WalkParts(EntryLines(data[0], column, indentation), QueryLines(data[1..], column, indentation), depth, depth, offset, indentation);
    }
  }

  lemma {:induction false} EntryWalk(e: Entry, depth: nat, offset: nat, indentation: nat)
    requires Renderable([e]) && EntrySafe(e)
    ensures Walk(EntryLines(e, Column(depth, offset, indentation), indentation), depth, offset, indentation) == Some(depth)
    decreases e, 0
  {
    assert e in [e];
    var column := Column(depth, offset, indentation);
    if !Keyword(e.key) {
      if e.value.Nothing? {
        KeyTextEnds(e.key, []);
        WalkLine(e.key, depth, depth, offset, indentation);
      } else if e.value.Dict? {
        var entries := e.value.entries;
        KeyTextEnds(e.key, entries);
        if |entries| == 1 && AliasOf(entries).Some? {
          WalkLine(KeyText(e.key, entries), depth, depth, offset, indentation);
        } else {
          QueryWalk(entries, depth + 1, offset, indentation);
          BlockWalk(e.key, entries, depth, offset, indentation);
        }
      }
    }
  }

  lemma BlockWalk(key: string, entries: seq<Entry>, depth: nat, offset: nat, indentation: nat)
    requires Blocky(entries) && Renderable(entries)
    requires var t := KeyText(key, entries); t != "" && t[0] !in " }]"
    requires Walk(QueryLines(entries, Column(depth + 1, offset, indentation), indentation), depth + 1, offset, indentation) == Some(depth + 1)
    ensures var column := Column(depth, offset, indentation);
            Walk([Spaces(column) + OpeningText(key, entries)] + QueryLines(entries, column + indentation, indentation) + [Spaces(column) + "}"],
                 depth, offset, indentation) == Some(depth)
  {
    ColumnOfNext(depth, offset, indentation);
    var opening := OpeningText(key, entries);
    assert opening[0] == KeyText(key, entries)[0] && opening[|opening| - 1] == '{';
    WalkEnclosed(opening, QueryLines(entries, Column(depth, offset, indentation) + indentation, indentation), "}", depth, offset, indentation);
  }

  lemma ConvertEnds(v: Value)
    requires Convertible(v) && Safe(v)
    ensures var t := ConvertToGraphqlAsString(v); t != "" && t[0] !in " }]" && t[|t| - 1] !in "{["
  {
    var t := ConvertToGraphqlAsString(v);
    match v
    case Text(s) =>
      if s != "" && s[0] == '$' {
        assert s[|s| - 1] in s[1..];
      } else {
        assert t[|t| - 1] == '"';
      }
    case Number(n) =>
      NumberIsWord(n);
      assert t[|t| - 1] in t && t[0] in t;
    case _ =>
  }

  lemma {:induction false} InputWalk(data: seq<Entry>, depth: nat, offset: nat, indentation: nat)
    requires InputRenderable(data) && SafeEntries(data)
    ensures Walk(InputLines(data, Column(depth, offset, indentation), indentation), depth, offset, indentation) == Some(depth)
    decreases data, 1
  {
    if data != [] {
      var column := Column(depth, offset, indentation);
      InputEntryWalk(data[0], depth, offset, indentation);
      InputWalk(data[1..], depth, offset, indentation);
      WalkParts(InputEntryLines(data[0], column, indentation), InputLines(data[1..], column, indentation), depth, depth, offset, indentation);
    }
  }

  /** Lines between a label that opens a bracket and its closing line. */
  lemma WalkLabelled(key: string, text: string, inner: seq<string>, closing: string, depth: nat, offset: nat, indentation: nat)
    requires IsName(key) && text in {": {", ": ["} && closing in {"}", "]"}
    requires Walk(inner, depth + 1, offset, indentation) == Some(depth + 1)
    ensures var column := Column(depth, offset, indentation);
            Walk([Spaces(column) + key + text] + inner + [Spaces(column) + closing], depth, offset, indentation) == Some(depth)
  {
    assert key[0] in key;
    SameOpening(Column(depth, offset, indentation), key, text);
    assert (key + text)[|key + text| - 1] == text[|text| - 1];
    WalkEnclosed(key + text, inner, closing, depth, offset, indentation);
  }

  lemma WalkScalar(e: Entry, depth: nat, offset: nat, indentation: nat)
    requires Convertible(e.value) && Safe(e.value) && IsName(e.key)
    ensures Walk([Spaces(Column(depth, offset, indentation)) + e.key + ": " + ConvertToGraphqlAsString(e.value)], depth, offset, indentation)
         == Some(depth)
  {
    assert e.key[0] in e.key;
    ConvertEnds(e.value);
    var text := ConvertToGraphqlAsString(e.value);
    var content := e.key + ": " + text;
    assert content[|content| - 1] == text[|text| - 1];
    WalkLine(content, depth, depth, offset, indentation);
    assert Spaces(Column(depth, offset, indentation)) + content == Spaces(Column(depth, offset, indentation)) + e.key + ": " + text;
  }

  lemma {:induction false} InputEntryWalk(e: Entry, depth: nat, offset: nat, indentation: nat)
    requires ValueRenderable(e.value) && IsName(e.key) && Safe(e.value)
    ensures Walk(InputEntryLines(e, Column(depth, offset, indentation), indentation), depth, offset, indentation) == Some(depth)
    decreases e, 0
  {
    var column := Column(depth, offset, indentation);
    match e.value
    case Dict(entries) =>
      InputWalk(entries, depth + 1, offset, indentation);
      ColumnOfNext(depth, offset, indentation);
      WalkLabelled(e.key, ": {", InputLines(entries, column + indentation, indentation), "}", depth, offset, indentation);
    case List(items) =>
      ItemsWalk(items, depth, offset, indentation);
      WalkLabelled(e.key, ": [", ItemLines(items, column, indentation), "]", depth, offset, indentation);
    case _ =>
      WalkScalar(e, depth, offset, indentation);
  }

  lemma {:induction false} ItemsWalk(items: seq<Value>, depth: nat, offset: nat, indentation: nat)
    requires forall i | i in items :: (if i.Dict? then InputRenderable(i.entries) else Convertible(i)) && Safe(i)
    ensures Walk(ItemLines(items, Column(depth, offset, indentation), indentation), depth + 1, offset, indentation) == Some(depth + 1)
    decreases items, 1
  {
    if items != [] {
      var column := Column(depth, offset, indentation);
      ItemWalk(items[0], depth, offset, indentation);
      ItemsWalk(items[1..], depth, offset, indentation);
      WalkParts(OneItemLines(items[0], column, indentation), ItemLines(items[1..], column, indentation), depth + 1, depth + 1, offset, indentation);
    }
  }

  lemma WalkScalarItem(item: Value, depth: nat, offset: nat, indentation: nat)
    requires Convertible(item) && Safe(item)
    ensures Walk([Spaces(Column(depth, offset, indentation)) + ConvertToGraphqlAsString(item) + ","], depth, offset, indentation) == Some(depth)
  {
    ConvertEnds(item);
    var text := ConvertToGraphqlAsString(item);
    WalkLine(text + ",", depth, depth, offset, indentation);
    Regroup(Spaces(Column(depth, offset, indentation)), text, ",");
  }

  lemma {:induction false} ItemWalk(item: Value, depth: nat, offset: nat, indentation: nat)
    requires (if item.Dict? then InputRenderable(item.entries) else Convertible(item)) && Safe(item)
    ensures Walk(OneItemLines(item, Column(depth, offset, indentation), indentation), depth + 1, offset, indentation) == Some(depth + 1)
    decreases item, 0
  {
    ColumnOfNext(depth, offset, indentation);
    if item.Dict? {
      InputWalk(item.entries, depth + 2, offset, indentation);
      ColumnOfNext(depth + 1, offset, indentation);
      var inner := InputLines(item.entries, Column(depth + 2, offset, indentation), indentation);
      WalkEnclosed("{", inner, "},", depth + 1, offset, indentation);
    } else {
      WalkScalarItem(item, depth + 1, offset, indentation);
    }
  }

  /** Rendered blocks close what they open and nothing else, and each line stands at the column of its depth. */
  lemma BlocksAreLaidOut(query: seq<Entry>, input: seq<Entry>, offset: nat, indentation: nat)
    requires Renderable(query) && QuerySafe(query) && InputRenderable(input) && SafeEntries(input)
    ensures Walk(QueryLines(query, offset, indentation), 0, offset, indentation) == Some(0)
    ensures Walk(InputLines(input, offset, indentation), 0, offset, indentation) == Some(0)
  {
    QueryWalk(query, 0, offset, indentation);
    InputWalk(input, 0, offset, indentation);
  }
}
