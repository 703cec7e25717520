/** Which data the printer writes so that it can be read back, and that nothing else is. */
module GraphQLSafety {
  import opened Common
  import opened GraphQLPrinter
  import opened GraphQLReader
  import Encodings

  // ---------- Data that can be written as GraphQL ----------

  /** A variable, or a text of characters that need no escape. */
  predicate SafeText(s: string) {
    if s != "" && s[0] == '$' then IsName(s[1..]) else forall c | c in s :: TextChar(c)
  }

  predicate Safe(v: Value) {
    match v
    case Nothing => false
    case Text(s) => SafeText(s)
    case List(items) => forall i | i in items :: Safe(i)
    case Dict(entries) => forall e | e in entries :: IsName(e.key) && Safe(e.value)
    case _ => true
  }

  predicate SafeEntries(entries: seq<Entry>) {
    forall e | e in entries :: IsName(e.key) && Safe(e.value)
  }

  predicate IsFragment(key: string) {
    |key| > |ON| && key[..|ON|] == ON && IsName(key[|ON|..])
  }

  predicate QuerySafe(data: seq<Entry>) {
    forall e | e in data :: EntrySafe(e)
  }

  predicate EntrySafe(e: Entry) {
    !Keyword(e.key) ==>
      match e.value
      case Nothing => IsName(e.key) || IsFragment(e.key)
      case Dict(entries) =>
        && (IsName(e.key) || IsFragment(e.key))
        && (AliasOf(entries).Some? ==> IsName(AliasOf(entries).value))
        && SafeEntries(FiltersOf(entries)) && QuerySafe(entries)
      case _ => true
  }

  /** The selection set that the dictionary stands for. */
  function Meant(data: seq<Entry>): seq<Selection> {
    if data == [] then [] else MeantBy(data[0]) + Meant(data[1..])
  }

  /** A key with nothing is a field; a dictionary is a field with a block, unless an alias is all it holds. Anything else is no field. */
  function MeantBy(e: Entry): seq<Selection> {
    if Keyword(e.key) then []
    else
      match e.value
      case Nothing => [Selection(None, e.key, [], NoBlock)]
      case Dict(entries) =>
        if |entries| == 1 && AliasOf(entries).Some? then [Selection(AliasOf(entries), e.key, [], NoBlock)]
        else [Selection(AliasOf(entries), e.key, FiltersOf(entries), Block(Meant(entries)))]
      case _ => []
  }

  /** What an entry stands for, by the dictionary's keys: `@filters` and `@alias` are no fields; a key with nothing is a field; a key with
      a dictionary is a field whose alias is the text under `@alias`, unless empty, and whose arguments are those under `@filters`. */
  lemma MeantByKeys(e: Entry)
    ensures e.key == "@filters" || e.key == "@alias" || !(e.value.Nothing? || e.value.Dict?) ==> MeantBy(e) == []
    ensures e.key != "@filters" && e.key != "@alias" && e.value.Nothing? ==> MeantBy(e) == [Selection(None, e.key, [], NoBlock)]
    ensures e.key != "@filters" && e.key != "@alias" && e.value.Dict? ==>
              |MeantBy(e)| == 1 && var (f, d) := (MeantBy(e)[0], e.value.entries);
                f.key == e.key
                && (forall a :: Lookup(d, "@alias") == Some(Text(a)) && a != "" ==> f.alias == Some(a))
                && (f.alias.Some? ==> Lookup(d, "@alias") == Some(Text(f.alias.value)) && f.alias.value != "")
                && (forall fs :: Lookup(d, "@filters") == Some(Dict(fs)) && |d| > 1 ==> f.arguments == fs)
                && (f.arguments != [] ==> Lookup(d, "@filters") == Some(Dict(f.arguments)))
                && (if |d| == 1 && f.alias.Some? then f.block == NoBlock else f.block == Block(Meant(d)))
  {
    assert FILTERS_KEY == "@filters" && ALIAS_KEY == "@alias";
  }

  predicate SelectionSafe(s: Selection) {
    && (s.alias.Some? ==> IsName(s.alias.value))
    && (IsName(s.key) || IsFragment(s.key))
    && SafeEntries(s.arguments)
    && (s.block.Block? ==> forall t | t in s.block.selections :: SelectionSafe(t))
  }

  /** The text of some lines, each with its line end. */
  function Joined(lines: seq<string>): string {
    if lines == [] then "" else lines[0] + "\n" + Joined(lines[1..])
  }

  lemma {:induction false} MeantIsSafe(data: seq<Entry>)
    ensures QuerySafe(data) <==> forall s | s in Meant(data) :: SelectionSafe(s)
  {
    if data != [] {
      MeantIsSafe(data[1..]);
      EntryIsSafe(data[0]);
      assert data == [data[0]] + data[1..];
      assert Meant(data) == MeantBy(data[0]) + Meant(data[1..]);
      assert QuerySafe(data) <==> EntrySafe(data[0]) && QuerySafe(data[1..]);
    }
  }

  lemma {:induction false} EntryIsSafe(e: Entry)
    ensures EntrySafe(e) <==> forall s | s in MeantBy(e) :: SelectionSafe(s)
  {
    if MeantBy(e) != [] {
      var s := MeantBy(e)[0];
      assert MeantBy(e) == [s];
      if e.value.Dict? {
        MeantIsSafe(e.value.entries);
        if |e.value.entries| == 1 && AliasOf(e.value.entries).Some? {
          AliasOnly(e.value.entries);
        }
      }
      assert EntrySafe(e) <==> SelectionSafe(s);
    }
  }

  lemma AliasOnly(entries: seq<Entry>)
    requires |entries| == 1 && AliasOf(entries).Some?
    ensures FiltersOf(entries) == [] && Meant(entries) == []
  {
    assert entries[0].key == ALIAS_KEY && entries[1..] == [];
    assert Meant(entries) == MeantBy(entries[0]) + [];
  }

  // ---------- What is read ----------

  /** Safe but for texts that start as a variable and go on as none. */
  predicate Tidy(v: Value) {
    match v
    case Nothing => false
    case Text(s) => forall c | c in s :: TextChar(c)
    case List(items) => forall i | i in items :: Tidy(i)
    case Dict(entries) => forall e | e in entries :: IsName(e.key) && Tidy(e.value)
    case _ => true
  }

  predicate TidyEntries(entries: seq<Entry>) {
    forall e | e in entries :: IsName(e.key) && Tidy(e.value)
  }

  predicate SelectionTidy(s: Selection) {
    && (s.alias.Some? ==> IsName(s.alias.value))
    && (IsName(s.key) || IsFragment(s.key))
    && TidyEntries(s.arguments)
    && (s.block.Block? ==> forall t | t in s.block.selections :: SelectionTidy(t))
  }

  predicate TextsOnly(ts: seq<Token>) {
    forall t | t in ts :: t.Quoted? ==> forall c | c in t.s :: TextChar(c)
  }

  predicate NoQuotedVariable(ts: seq<Token>) {
    forall t | t in ts :: t.Quoted? ==> t.s == "" || t.s[0] != '$'
  }

  lemma {:induction false} LexGivesTexts(s: string)
    requires Lex(s).Some?
    ensures TextsOnly(Lex(s).value)
    decreases |s|
  {
    if s != "" {
      if Ignored(s[0]) || IsMark(s[0]) {
        LexGivesTexts(s[1..]);
      } else if s[0] == '.' {
        LexGivesTexts(s[3..]);
      } else if WordChar(s[0]) {
        LexGivesTexts(s[WordRun(s)..]);
      } else {
        var n := TextRun(s[1..]);
        LexGivesTexts(s[n + 2..]);
        assert s[1..n + 1] == s[1..][..n];
      }
    }
  }

  lemma WordReadsSafe(w: string)
    ensures ReadWord(w).Some? ==> Safe(ReadWord(w).value) && Tidy(ReadWord(w).value)
  {
    if w != "" && w[0] == '$' && IsName(w[1..]) {
      assert w == [w[0]] + w[1..];
    }
  }

  /** What is left of the tokens. */
  predicate Rest(ts: seq<Token>, rest: seq<Token>) {
    |rest| <= |ts| && rest == ts[|ts| - |rest|..]
  }

  lemma RestOfRest(ts: seq<Token>, a: seq<Token>, b: seq<Token>)
    requires Rest(ts, a) && Rest(a, b)
    ensures Rest(ts, b)
  {
  }

  lemma {:induction false} ReadValueLeaves(ts: seq<Token>)
    requires ReadValue(ts).Some?
    ensures Rest(ts, ReadValue(ts).value.1)
    decreases |ts|, 1
  {
    match ts[0]
    case Mark('[') => ReadItemsLeave(ts[1..]);
    case Mark('{') => ReadEntriesLeave(ts[1..]);
    case _ =>
  }

  lemma {:induction false} ReadItemsLeave(ts: seq<Token>)
    requires ReadItems(ts).Some?
    ensures Rest(ts, ReadItems(ts).value.1)
    decreases |ts|, 2
  {
    if ts != [] && ts[0] != Mark(']') {
      ReadValueLeaves(ts);
      ReadItemsLeave(ReadValue(ts).value.1);
    }
  }

  lemma {:induction false} ReadEntriesLeave(ts: seq<Token>)
    requires ReadEntries(ts).Some?
    ensures Rest(ts, ReadEntries(ts).value.1)
    decreases |ts|, 2
  {
    if ts != [] && ts[0].Word? {
      ReadValueLeaves(ts[2..]);
      ReadEntriesLeave(ReadValue(ts[2..]).value.1);
    }
  }

  lemma ReadArgumentsLeave(ts: seq<Token>)
    requires ReadArguments(ts).Some?
    ensures Rest(ts, ReadArguments(ts).value.1)
  {
    if StartsWith(ts, '(') {
      ReadEntriesLeave(ts[1..]);
      RestOfRest(ts, ts[1..], ReadEntries(ts[1..]).value.1);
    }
  }

  lemma {:induction false} ReadBlockLeaves(ts: seq<Token>)
    requires ReadBlock(ts).Some?
    ensures Rest(ts, ReadBlock(ts).value.1)
    decreases |ts|, 1
  {
    if StartsWith(ts, '{') {
      ReadSelectionsLeave(ts[1..]);
      RestOfRest(ts, ts[1..], ReadSelections(ts[1..]).value.1);
    }
  }

  lemma {:induction false} ReadFieldLeaves(ts: seq<Token>)
    requires ReadField(ts).Some?
    ensures Rest(ts, ReadField(ts).value.1)
    decreases |ts|, 2
  {
    var named := ReadAlias(ts).1;
    var rest := ReadArguments(named[1..]).value.1;
    ReadArgumentsLeave(named[1..]);
    ReadBlockLeaves(rest);
    RestOfRest(ts, named, named[1..]);
    RestOfRest(ts, named[1..], rest);
    RestOfRest(ts, rest, ReadBlock(rest).value.1);
  }

  lemma {:induction false} ReadSelectionsLeave(ts: seq<Token>)
    requires ReadSelections(ts).Some?
    ensures Rest(ts, ReadSelections(ts).value.1)
    decreases |ts|, 4
  {
    if ts != [] && (ts[0].Word? || ts[0].Spread?) {
      ReadSelectionLeaves(ts);
      var rest := (if ts[0].Spread? then ReadFragment(ts) else ReadField(ts)).value.1;
      ReadSelectionsLeave(rest);
      RestOfRest(ts, rest, ReadSelections(rest).value.1);
    }
  }

  lemma {:induction false} ReadSelectionLeaves(ts: seq<Token>)
    requires ts != [] && (if ts[0].Spread? then ReadFragment(ts) else ReadField(ts)).Some?
    ensures Rest(ts, (if ts[0].Spread? then ReadFragment(ts) else ReadField(ts)).value.1)
    decreases |ts|, 3
  {
    if ts[0].Spread? {
      ReadBlockLeaves(ts[3..]);
      RestOfRest(ts, ts[3..], ReadBlock(ts[3..]).value.1);
    } else {
      ReadFieldLeaves(ts);
    }
  }

  lemma {:induction false} ReadValueIsTidy(ts: seq<Token>)
    requires TextsOnly(ts) && ReadValue(ts).Some?
    ensures Tidy(ReadValue(ts).value.0) && (NoQuotedVariable(ts) ==> Safe(ReadValue(ts).value.0))
    decreases |ts|, 1
  {
    match ts[0]
    case Word(w) => WordReadsSafe(w);
    case Mark('[') => ReadItemsAreTidy(ts[1..]);
    case Mark('{') => ReadEntriesAreTidy(ts[1..]);
    case _ =>
  }

  lemma RestKeeps(ts: seq<Token>, rest: seq<Token>)
    requires Rest(ts, rest)
    ensures TextsOnly(ts) ==> TextsOnly(rest)
    ensures NoQuotedVariable(ts) ==> NoQuotedVariable(rest)
  {
    assert forall t | t in rest :: t in ts;
  }

  lemma {:induction false} ReadItemsAreTidy(ts: seq<Token>)
    requires TextsOnly(ts) && ReadItems(ts).Some?
    ensures forall i | i in ReadItems(ts).value.0 :: Tidy(i) && (NoQuotedVariable(ts) ==> Safe(i))
    decreases |ts|, 2
  {
    if ts != [] && ts[0] != Mark(']') {
      ReadValueIsTidy(ts);
      ReadValueLeaves(ts);
      RestKeeps(ts, ReadValue(ts).value.1);
      ReadItemsAreTidy(ReadValue(ts).value.1);
    }
  }

  lemma {:induction false} ReadEntriesAreTidy(ts: seq<Token>)
    requires TextsOnly(ts) && ReadEntries(ts).Some?
    ensures TidyEntries(ReadEntries(ts).value.0) && (NoQuotedVariable(ts) ==> SafeEntries(ReadEntries(ts).value.0))
    decreases |ts|, 2
  {
    if ts != [] && ts[0].Word? {
      RestKeeps(ts, ts[2..]);
      ReadValueIsTidy(ts[2..]);
      ReadValueLeaves(ts[2..]);
      RestKeeps(ts[2..], ReadValue(ts[2..]).value.1);
      ReadEntriesAreTidy(ReadValue(ts[2..]).value.1);
    }
  }

  lemma {:induction false} ReadBlockIsTidy(ts: seq<Token>)
    requires TextsOnly(ts) && ReadBlock(ts).Some? && ReadBlock(ts).value.0.Block?
    ensures forall t | t in ReadBlock(ts).value.0.selections :: SelectionTidy(t) && (NoQuotedVariable(ts) ==> SelectionSafe(t))
    decreases |ts|, 1
  {
    RestKeeps(ts, ts[1..]);
    ReadSelectionsAreTidy(ts[1..]);
  }

  lemma ReadArgumentsAreTidy(ts: seq<Token>)
    requires TextsOnly(ts) && ReadArguments(ts).Some?
    ensures TidyEntries(ReadArguments(ts).value.0) && (NoQuotedVariable(ts) ==> SafeEntries(ReadArguments(ts).value.0))
  {
    if StartsWith(ts, '(') {
      RestKeeps(ts, ts[1..]);
      ReadEntriesAreTidy(ts[1..]);
    }
  }

  lemma {:induction false} ReadFieldIsTidy(ts: seq<Token>)
    requires TextsOnly(ts) && ReadField(ts).Some?
    ensures SelectionTidy(ReadField(ts).value.0) && (NoQuotedVariable(ts) ==> SelectionSafe(ReadField(ts).value.0))
    decreases |ts|, 2
  {
    var named := ReadAlias(ts).1;
    RestKeeps(ts, named);
    RestKeeps(named, named[1..]);
    ReadArgumentsAreTidy(named[1..]);
    var rest := ReadArguments(named[1..]).value.1;
    ReadArgumentsLeave(named[1..]);
    RestKeeps(named[1..], rest);
    if ReadBlock(rest).value.0.Block? {
      ReadBlockIsTidy(rest);
    }
  }

  lemma {:induction false} ReadFragmentIsTidy(ts: seq<Token>)
    requires TextsOnly(ts) && ReadFragment(ts).Some?
    ensures SelectionTidy(ReadFragment(ts).value.0) && (NoQuotedVariable(ts) ==> SelectionSafe(ReadFragment(ts).value.0))
    decreases |ts|, 2
  {
    RestKeeps(ts, ts[3..]);
    ReadBlockIsTidy(ts[3..]);
    var key := ON + ts[2].w;
    assert key[|ON|..] == ts[2].w;
  }

  lemma {:induction false} ReadSelectionsAreTidy(ts: seq<Token>)
    requires TextsOnly(ts) && ReadSelections(ts).Some?
    ensures forall t | t in ReadSelections(ts).value.0 :: SelectionTidy(t) && (NoQuotedVariable(ts) ==> SelectionSafe(t))
    decreases |ts|, 3
  {
    if ts != [] && (ts[0].Word? || ts[0].Spread?) {
      var first := if ts[0].Spread? then ReadFragment(ts) else ReadField(ts);
      if ts[0].Spread? {
        ReadFragmentIsTidy(ts);
      } else {
        ReadFieldIsTidy(ts);
      }
      ReadSelectionLeaves(ts);
      RestKeeps(ts, first.value.1);
      ReadSelectionsAreTidy(first.value.1);
    }
  }

  // ---------- Quoted variables are not printed ----------

  /** No quote stands before a `$`. */
  predicate Apart(text: string) {
    forall i | 0 <= i < |text| - 1 && text[i] == '"' :: text[i + 1] != '$'
  }

  lemma {:induction false} ApartHasNoQuotedVariable(s: string)
    requires Apart(s) && Lex(s).Some?
    ensures NoQuotedVariable(Lex(s).value)
    decreases |s|
  {
    if s != "" {
      if Ignored(s[0]) || IsMark(s[0]) {
        ApartHasNoQuotedVariable(s[1..]);
      } else if s[0] == '.' {
        ApartHasNoQuotedVariable(s[3..]);
      } else if WordChar(s[0]) {
        ApartHasNoQuotedVariable(s[WordRun(s)..]);
      } else {
        ApartHasNoQuotedVariable(s[TextRun(s[1..]) + 2..]);
      }
    }
  }

  predicate Unquoted(text: string) {
    forall c | c in text :: c != '"'
  }

  lemma UnquotedIsApart(text: string)
    requires Unquoted(text)
    ensures Apart(text)
  {
    forall i | 0 <= i < |text| - 1 ensures text[i] != '"' {
      assert text[i] in text;
    }
  }

  lemma Together(a: string, b: string)
    requires Apart(a) && Apart(b) && (a == "" || a[|a| - 1] != '"' || b == "" || b[0] != '$')
    ensures Apart(a + b)
  {
  }

  lemma ApartAfter(a: string, b: string)
    requires Unquoted(a) && Apart(b)
    ensures Apart(a + b)
  {
    UnquotedIsApart(a);
    assert a != "" ==> a[|a| - 1] in a;
    Together(a, b);
  }

  lemma NamesAreUnquoted(key: string)
    requires IsName(key) || IsFragment(key)
    ensures Unquoted(key)
  {
    if IsFragment(key) {
      assert key == ON + key[|ON|..];
    }
  }

  lemma {:induction false} ConvertedIsApart(v: Value)
    requires Convertible(v) && Tidy(v)
    ensures Apart(ConvertToGraphqlAsString(v))
    decreases v, 0
  {
    match v
    case Text(s) =>
      assert Unquoted(s);
      UnquotedIsApart(s);
      if s == "" || s[0] != '$' {
        Together("\"", s);
        Together("\"" + s, "\"");
      }
    case List(items) =>
      ItemsAreApart(items);
      ApartAfter("[", ConvertItems(items));
      Together("[" + ConvertItems(items), "]");
    case Number(n) =>
      NumbersAreUnquoted(n);
      UnquotedIsApart(Encodings.Encoded(n, 10, true));
    case _ =>
  }

  lemma {:induction false} DigitsAreDecimal(n: nat)
    ensures forall c | c in Encodings.Digits(n, 10, true) :: '0' <= c <= '9'
  {
    if n > 0 {
      DigitsAreDecimal(Encodings.Quot(n, 10));
    }
  }

  lemma NumbersAreUnquoted(n: int)
    ensures Unquoted(Encodings.Encoded(n, 10, true))
  {
    DigitsAreDecimal(if n < 0 then -n else n);
  }

  lemma {:induction false} ItemsAreApart(items: seq<Value>)
    requires forall i | i in items :: Convertible(i) && Tidy(i)
    ensures Apart(ConvertItems(items))
    decreases items, 1
  {
    if items != [] {
      ConvertedIsApart(items[0]);
      if |items| > 1 {
        ItemsAreApart(items[1..]);
        Together(ConvertToGraphqlAsString(items[0]), ", ");
        Together(ConvertToGraphqlAsString(items[0]) + ", ", ConvertItems(items[1..]));
      }
    }
  }

  lemma LabelledIsApart(e: Entry)
    requires IsName(e.key) && Convertible(e.value) && Tidy(e.value)
    ensures Apart(e.key + ": " + ConvertToGraphqlAsString(e.value))
  {
    ConvertedIsApart(e.value);
    NamesAreUnquoted(e.key);
    ApartAfter(e.key + ": ", ConvertToGraphqlAsString(e.value));
  }

  lemma {:induction false} FiltersAreApart(filters: seq<Entry>)
    requires (forall e | e in filters :: Convertible(e.value)) && TidyEntries(filters)
    ensures Apart(ConvertFilters(filters))
  {
    if filters != [] {
      var first := filters[0].key + ": " + ConvertToGraphqlAsString(filters[0].value);
      LabelledIsApart(filters[0]);
      if |filters| > 1 {
        FiltersAreApart(filters[1..]);
        Together(first, ", ");
        Together(first + ", ", ConvertFilters(filters[1..]));
      }
    }
  }

  predicate AllApart(lines: seq<string>) {
    forall line | line in lines :: Apart(line)
  }

  lemma {:induction false} JoinedIsApart(lines: seq<string>)
    requires AllApart(lines)
    ensures Apart(Joined(lines))
  {
    if lines != [] {
      JoinedIsApart(lines[1..]);
      Together(lines[0], "\n");
      Together(lines[0] + "\n", Joined(lines[1..]));
    }
  }

  lemma LineIsApart(offset: nat, content: string)
    requires Apart(content)
    ensures Apart(Spaces(offset) + content)
  {
    ApartAfter(Spaces(offset), content);
  }

  lemma PlainLineIsApart(offset: nat, content: string)
    requires Unquoted(content)
    ensures Apart(Spaces(offset) + content)
  {
    UnquotedIsApart(content);
    LineIsApart(offset, content);
  }

  lemma {:induction false} InputLinesAreApart(data: seq<Entry>, offset: nat, indentation: nat)
    requires InputRenderable(data) && TidyEntries(data)
    ensures AllApart(InputLines(data, offset, indentation))
    decreases data, 1
  {
    if data != [] {
      InputEntryIsApart(data[0], offset, indentation);
      InputLinesAreApart(data[1..], offset, indentation);
    }
  }

  lemma {:induction false} InputEntryIsApart(e: Entry, offset: nat, indentation: nat)
    requires ValueRenderable(e.value) && IsName(e.key) && Tidy(e.value)
    ensures AllApart(InputEntryLines(e, offset, indentation))
    decreases e, 0
  {
    NamesAreUnquoted(e.key);
    match e.value
    case Dict(entries) =>
      InputLinesAreApart(entries, offset + indentation, indentation);
      PlainLineIsApart(offset, e.key + ": {");
      assert Spaces(offset) + (e.key + ": {") == Spaces(offset) + e.key + ": {";
    case List(items) =>
      ItemLinesAreApart(items, offset, indentation);
      PlainLineIsApart(offset, e.key + ": [");
      assert Spaces(offset) + (e.key + ": [") == Spaces(offset) + e.key + ": [";
    case _ =>
      ScalarLineIsApart(e, offset);
  }

  lemma ScalarLineIsApart(e: Entry, offset: nat)
    requires IsName(e.key) && Convertible(e.value) && Tidy(e.value)
    ensures Apart(Spaces(offset) + e.key + ": " + ConvertToGraphqlAsString(e.value))
  {
    var content := e.key + ": " + ConvertToGraphqlAsString(e.value);
    LabelledIsApart(e);
    LineIsApart(offset, content);
    assert Spaces(offset) + content == Spaces(offset) + e.key + ": " + ConvertToGraphqlAsString(e.value);
  }

  lemma {:induction false} ItemLinesAreApart(items: seq<Value>, offset: nat, indentation: nat)
    requires forall i | i in items :: (if i.Dict? then InputRenderable(i.entries) else Convertible(i)) && Tidy(i)
    ensures AllApart(ItemLines(items, offset, indentation))
    decreases items, 0
  {
    if items != [] {
      var item := items[0];
      if item.Dict? {
        InputLinesAreApart(item.entries, offset + indentation + indentation, indentation);
      } else {
        ConvertedIsApart(item);
        Together(ConvertToGraphqlAsString(item), ",");
        LineIsApart(offset + indentation, ConvertToGraphqlAsString(item) + ",");
        Regroup(Spaces(offset + indentation), ConvertToGraphqlAsString(item), ",");
      }
      ItemLinesAreApart(items[1..], offset, indentation);
    }
  }

  lemma KeyTextIsUnquoted(key: string, entries: seq<Entry>)
    requires (IsName(key) || IsFragment(key)) && (AliasOf(entries).Some? ==> IsName(AliasOf(entries).value))
    ensures Unquoted(KeyText(key, entries))
  {
    NamesAreUnquoted(key);
    if AliasOf(entries).Some? {
      NamesAreUnquoted(AliasOf(entries).value);
    }
  }

  lemma OpeningIsApart(key: string, entries: seq<Entry>)
    requires (IsName(key) || IsFragment(key)) && (AliasOf(entries).Some? ==> IsName(AliasOf(entries).value))
    requires Blocky(entries) && TidyEntries(FiltersOf(entries))
    ensures Apart(OpeningText(key, entries))
  {
    var filters := ConvertFilters(FiltersOf(entries));
    KeyTextIsUnquoted(key, entries);
    FiltersAreApart(FiltersOf(entries));
    ApartAfter("(", filters);
    Together("(" + filters, ") {");
    ApartAfter(KeyText(key, entries), "(" + filters + ") {");
    ApartAfter(KeyText(key, entries), " {");
  }

  lemma {:induction false} QueryLinesAreApart(data: seq<Entry>, offset: nat, indentation: nat)
    requires Renderable(data) && forall s | s in Meant(data) :: SelectionTidy(s)
    ensures AllApart(QueryLines(data, offset, indentation))
    decreases data, 1
  {
    if data != [] {
      assert Meant(data) == MeantBy(data[0]) + Meant(data[1..]);
      EntryLinesAreApart(data[0], offset, indentation);
      QueryLinesAreApart(data[1..], offset, indentation);
    }
  }

  lemma {:induction false} EntryLinesAreApart(e: Entry, offset: nat, indentation: nat)
    requires Renderable([e]) && forall s | s in MeantBy(e) :: SelectionTidy(s)
    ensures AllApart(EntryLines(e, offset, indentation))
    decreases e, 0
  {
    assert e in [e];
    if MeantBy(e) != [] {
      var s := MeantBy(e)[0];
      assert SelectionTidy(s);
      if e.value.Nothing? {
        NamesAreUnquoted(e.key);
        PlainLineIsApart(offset, e.key);
      } else {
        var entries := e.value.entries;
        KeyTextIsUnquoted(e.key, entries);
        PlainLineIsApart(offset, KeyText(e.key, entries));
        if !(|entries| == 1 && AliasOf(entries).Some?) {
          OpeningIsApart(e.key, entries);
          LineIsApart(offset, OpeningText(e.key, entries));
          PlainLineIsApart(offset, "}");
          QueryLinesAreApart(entries, offset + indentation, indentation);
        }
      }
    }
  }

  // ---------- Data that is read back is safe ----------

  lemma ReadInputIsSafe(data: seq<Entry>, offset: nat, indentation: nat)
    requires InputRenderable(data) && ReadInput(Joined(InputLines(data, offset, indentation))) == Some(data)
    ensures SafeEntries(data)
  {
    var text := Joined(InputLines(data, offset, indentation));
    var ts := Lex(text).value;
    LexGivesTexts(text);
    ReadEntriesAreTidy(ts);
    InputLinesAreApart(data, offset, indentation);
    JoinedIsApart(InputLines(data, offset, indentation));
    ApartHasNoQuotedVariable(text);
  }

  lemma ReadQueryIsSafe(data: seq<Entry>, offset: nat, indentation: nat)
    requires Renderable(data) && ReadQuery(Joined(QueryLines(data, offset, indentation))) == Some(Meant(data))
    ensures QuerySafe(data)
  {
    var text := Joined(QueryLines(data, offset, indentation));
    var ts := Lex(text).value;
    LexGivesTexts(text);
    ReadSelectionsAreTidy(ts);
    QueryLinesAreApart(data, offset, indentation);
    JoinedIsApart(QueryLines(data, offset, indentation));
    ApartHasNoQuotedVariable(text);
    MeantIsSafe(data);
  }
}
