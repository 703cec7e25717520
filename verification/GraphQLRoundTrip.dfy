/** What the printer writes is read back as what it was given. */
module GraphQLRoundTrip {
  import opened Common
  import opened GraphQLPrinter
  import opened GraphQLReader
  import opened GraphQLSafety
  import Encodings

  // ---------- Values ----------

  function ValueTokens(v: Value): seq<Token> {
    match v
    case Nothing => [Word("None")]
    case Text(s) => if s != "" && s[0] == '$' then [Word(s)] else [Quoted(s)]
    case Flag(b) => [Word(if b then "true" else "false")]
    case Number(n) => [Word(Encodings.Encoded(n, 10, true))]
    case List(items) => [Mark('[')] + ItemsTokens(items) + [Mark(']')]
    case Dict(entries) => [Mark('{')] + EntriesTokens(entries) + [Mark('}')]
  }

  function ItemsTokens(items: seq<Value>): seq<Token> {
    if items == [] then [] else ValueTokens(items[0]) + ItemsTokens(items[1..])
  }

  function EntriesTokens(entries: seq<Entry>): seq<Token> {
    if entries == [] then [] else EntryTokens(entries[0]) + EntriesTokens(entries[1..])
  }

  function EntryTokens(e: Entry): seq<Token> {
    [Word(e.key), Mark(':')] + ValueTokens(e.value)
  }

  lemma DigitsAreWord(n: nat)
    requires n > 0
    ensures var w := Encodings.Digits(n, 10, true); IsWord(w) && '0' <= w[0] <= '9'
  {
    var w := Encodings.Digits(n, 10, true);
    DigitsAreDecimal(n);
    Encodings.DigitsHaveTheirValue(n, 10, true);
    assert w[0] in w;
  }

  lemma NumberIsWord(n: int)
    ensures var w := Encodings.Encoded(n, 10, true); IsWord(w) && (w[0] == '-' || '0' <= w[0] <= '9')
  {
    if n > 0 {
      DigitsAreWord(n);
    } else if n < 0 {
      DigitsAreWord(-n);
    }
  }

  lemma ListReads(inner: seq<Token>, items: seq<Value>, rest: seq<Token>)
    requires ReadItems(inner + ([Mark(']')] + rest)) == Some((items, [Mark(']')] + rest))
    ensures ReadValue([Mark('[')] + inner + [Mark(']')] + rest) == Some((List(items), rest))
  {
    var ts := [Mark('[')] + inner + [Mark(']')] + rest;
    assert ts[1..] == inner + ([Mark(']')] + rest);
    assert ([Mark(']')] + rest)[1..] == rest;
  }

  lemma DictReads(inner: seq<Token>, entries: seq<Entry>, rest: seq<Token>)
    requires ReadEntries(inner + ([Mark('}')] + rest)) == Some((entries, [Mark('}')] + rest))
    ensures ReadValue([Mark('{')] + inner + [Mark('}')] + rest) == Some((Dict(entries), rest))
  {
    var ts := [Mark('{')] + inner + [Mark('}')] + rest;
    assert ts[1..] == inner + ([Mark('}')] + rest);
    assert ([Mark('}')] + rest)[1..] == rest;
  }

  lemma ScalarReads(v: Value, rest: seq<Token>)
    requires Safe(v) && !v.List? && !v.Dict?
    ensures ReadValue(ValueTokens(v) + rest) == Some((v, rest))
  {
    if v.Number? {
      NumberReads(v.n);
    }
    assert (ValueTokens(v) + rest)[1..] == rest;
  }

  lemma NumberReads(n: int)
    ensures ReadWord(Encodings.Encoded(n, 10, true)) == Some(Number(n))
  {
    NumberIsWord(n);
    Encodings.DecodeUndoesEncode(n, 10, true);
    var w := Encodings.Encoded(n, 10, true);
    assert w[0] != 't' && w[0] != 'f' && w[0] != '$';
  }

  lemma {:induction false} ValueReads(v: Value, rest: seq<Token>)
    requires Safe(v)
    ensures ReadValue(ValueTokens(v) + rest) == Some((v, rest))
    decreases v, 0
  {
    match v
    case List(items) =>
      ItemsRead(items, [Mark(']')] + rest);
      ListReads(ItemsTokens(items), items, rest);
    case Dict(entries) =>
      EntriesRead(entries, [Mark('}')] + rest);
      DictReads(EntriesTokens(entries), entries, rest);
    case _ =>
      ScalarReads(v, rest);
  }

  lemma FirstItemReads(first: seq<Token>, v: Value, more: seq<Token>, items: seq<Value>, rest: seq<Token>)
    requires first != [] && first[0] != Mark(']') && ReadValue(first + more) == Some((v, more)) && ReadItems(more) == Some((items, rest))
    ensures ReadItems(first + more) == Some(([v] + items, rest))
  {
  }

  lemma NoClosingFirst(v: Value)
    ensures ValueTokens(v) != [] && ValueTokens(v)[0] != Mark(']')
  {
  }

  lemma {:induction false} ItemsRead(items: seq<Value>, rest: seq<Token>)
    requires (forall i | i in items :: Safe(i)) && StartsWith(rest, ']')
    ensures ReadItems(ItemsTokens(items) + rest) == Some((items, rest))
    decreases items, 1
  {
    if items == [] {
      assert ItemsTokens(items) + rest == rest;
    } else {
      var more := ItemsTokens(items[1..]) + rest;
      ValueReads(items[0], more);
      ItemsRead(items[1..], rest);
      NoClosingFirst(items[0]);
      FirstItemReads(ValueTokens(items[0]), items[0], more, items[1..], rest);
      Regroup(ValueTokens(items[0]), ItemsTokens(items[1..]), rest);
      assert [items[0]] + items[1..] == items;
    }
  }

  lemma FirstEntryReads(e: Entry, more: seq<Token>, entries: seq<Entry>, rest: seq<Token>)
    requires IsName(e.key) && ReadValue(ValueTokens(e.value) + more) == Some((e.value, more)) && ReadEntries(more) == Some((entries, rest))
    ensures ReadEntries(EntryTokens(e) + more) == Some(([e] + entries, rest))
  {
    var ts := EntryTokens(e) + more;
    assert ts[2..] == ValueTokens(e.value) + more;
  }

  lemma {:induction false} EntriesRead(entries: seq<Entry>, rest: seq<Token>)
    requires SafeEntries(entries) && (rest == [] || !rest[0].Word?)
    ensures ReadEntries(EntriesTokens(entries) + rest) == Some((entries, rest))
    decreases entries, 1
  {
    if entries == [] {
      assert EntriesTokens(entries) + rest == rest;
    } else {
      var more := EntriesTokens(entries[1..]) + rest;
      ValueReads(entries[0].value, more);
      EntriesRead(entries[1..], rest);
      FirstEntryReads(entries[0], more, entries[1..], rest);
      Regroup(EntryTokens(entries[0]), EntriesTokens(entries[1..]), rest);
      assert [entries[0]] + entries[1..] == entries;
    }
  }

  // ---------- The text of values ----------

  lemma LexMarked(c: char, p: string, ts: seq<Token>)
    requires IsMark(c) && Lexes(p, ts)
    ensures Lexes([c] + p, [Mark(c)] + ts)
  {
    LexMark(c);
    LexBoth([c], [Mark(c)], p, ts);
  }

  lemma LexSkipped(c: char, p: string, ts: seq<Token>)
    requires Ignored(c) && Lexes(p, ts)
    ensures Lexes([c] + p, ts)
  {
    LexIgnored(c);
    LexBoth([c], [], p, ts);
    assert [] + ts == ts;
  }

  /** A value followed by something that does not go on with a word. */
  lemma {:induction false} ConvertLexes(v: Value, p: string, ts: seq<Token>)
    requires Convertible(v) && Safe(v) && Delimits(p) && Lexes(p, ts)
    ensures Lexes(ConvertToGraphqlAsString(v) + p, ValueTokens(v) + ts)
    decreases v, 0
  {
    match v
    case Text(s) =>
      if s != "" && s[0] == '$' {
        assert s == [s[0]] + s[1..];
        LexWord(s, p, ts);
      } else {
        LexQuoted(s, p, ts);
      }
    case Flag(b) => LexWord(if b then "true" else "false", p, ts);
    case Number(n) =>
      NumberIsWord(n);
      LexWord(Encodings.Encoded(n, 10, true), p, ts);
    case List(items) =>
      LexMarked(']', p, ts);
      ItemsLex(items, "]" + p, [Mark(']')] + ts);
      LexMarked('[', ConvertItems(items) + ("]" + p), ItemsTokens(items) + ([Mark(']')] + ts));
      assert "[" + (ConvertItems(items) + ("]" + p)) == ("[" + ConvertItems(items) + "]") + p;
      assert [Mark('[')] + (ItemsTokens(items) + ([Mark(']')] + ts)) == ValueTokens(v) + ts;
  }

  lemma {:induction false} ItemsLex(items: seq<Value>, p: string, ts: seq<Token>)
    requires (forall i | i in items :: Convertible(i) && Safe(i)) && Delimits(p) && Lexes(p, ts)
    ensures Lexes(ConvertItems(items) + p, ItemsTokens(items) + ts)
    decreases items, 1
  {
    if items == [] {
      assert "" + p == p && ItemsTokens(items) + ts == ts;
    } else if |items| == 1 {
      ConvertLexes(items[0], p, ts);
      assert items[1..] == [];
      assert ItemsTokens(items) == ValueTokens(items[0]);
    } else {
      var q, us := ConvertItems(items[1..]) + p, ItemsTokens(items[1..]) + ts;
      ItemsLex(items[1..], p, ts);
      LexSkipped(' ', q, us);
      LexSkipped(',', " " + q, us);
      ConvertLexes(items[0], "," + (" " + q), us);
      assert ConvertToGraphqlAsString(items[0]) + ("," + (" " + q)) == ConvertItems(items) + p;
      assert ValueTokens(items[0]) + us == ItemsTokens(items) + ts;
    }
  }

  /** A name, a colon, a blank and what follows. */
  lemma LexLabel(name: string, p: string, ts: seq<Token>)
    requires IsName(name) && Lexes(p, ts)
    ensures Lexes(name + ": " + p, [Word(name), Mark(':')] + ts)
  {
    LexSkipped(' ', p, ts);
    LexMarked(':', " " + p, ts);
    LexWord(name, ":" + (" " + p), [Mark(':')] + ts);
    assert name + (":" + (" " + p)) == name + ": " + p;
    assert [Word(name)] + ([Mark(':')] + ts) == [Word(name), Mark(':')] + ts;
  }

  lemma ArgumentLexes(e: Entry, p: string, ts: seq<Token>)
    requires Convertible(e.value) && IsName(e.key) && Safe(e.value) && Delimits(p) && Lexes(p, ts)
    ensures Lexes(e.key + ": " + ConvertToGraphqlAsString(e.value) + p, EntryTokens(e) + ts)
  {
    var text := ConvertToGraphqlAsString(e.value);
    ConvertLexes(e.value, p, ts);
    LexLabel(e.key, text + p, ValueTokens(e.value) + ts);
    Regroup(e.key + ": ", text, p);
    Regroup([Word(e.key), Mark(':')], ValueTokens(e.value), ts);
  }

  lemma {:induction false} FiltersLex(filters: seq<Entry>, p: string, ts: seq<Token>)
    requires (forall e | e in filters :: Convertible(e.value)) && SafeEntries(filters) && Delimits(p) && Lexes(p, ts)
    ensures Lexes(ConvertFilters(filters) + p, EntriesTokens(filters) + ts)
  {
    if filters == [] {
      assert "" + p == p && EntriesTokens(filters) + ts == ts;
    } else if |filters| == 1 {
      ArgumentLexes(filters[0], p, ts);
      assert filters[1..] == [];
      assert EntriesTokens(filters) == EntryTokens(filters[0]);
    } else {
      var first := filters[0].key + ": " + ConvertToGraphqlAsString(filters[0].value);
      var q, us := ConvertFilters(filters[1..]) + p, EntriesTokens(filters[1..]) + ts;
      FiltersLex(filters[1..], p, ts);
      LexSkipped(' ', q, us);
      LexSkipped(',', " " + q, us);
      ArgumentLexes(filters[0], "," + (" " + q), us);
      Separated(first, ConvertFilters(filters[1..]), p);
      Regroup(EntryTokens(filters[0]), EntriesTokens(filters[1..]), ts);
    }
  }

  lemma Separated(first: string, more: string, p: string)
    ensures first + ", " + more + p == first + ("," + (" " + (more + p)))
  {
    assert first + ", " + more + p == first + (", " + (more + p));
    assert ", " + (more + p) == "," + (" " + (more + p));
  }

  // ---------- Queries ----------

  lemma {:induction false} JoinedParts(a: seq<string>, b: seq<string>)
    ensures Joined(a + b) == Joined(a) + Joined(b)
  {
    if a == [] {
      assert a + b == b && "" + Joined(b) == Joined(b);
    } else {
      assert (a + b)[1..] == a[1..] + b;
      JoinedParts(a[1..], b);
      Regroup(a[0] + "\n", Joined(a[1..]), Joined(b));
    }
  }

  function AliasTokens(alias: Option<string>): seq<Token> {
    if alias.Some? then [Word(alias.value), Mark(':')] else []
  }

  function KeyTokens(key: string): seq<Token> {
    if IsFragment(key) then [Spread, Word("on"), Word(key[|ON|..])] else [Word(key)]
  }

  function ArgumentsTokens(arguments: seq<Entry>): seq<Token> {
    if arguments == [] then [] else [Mark('(')] + EntriesTokens(arguments) + [Mark(')')]
  }

  function BlockTokens(block: Block): seq<Token> {
    if block.NoBlock? then [] else [Mark('{')] + SelectionsTokens(block.selections) + [Mark('}')]
  }

  function SelectionTokens(s: Selection): seq<Token> {
    AliasTokens(s.alias) + (KeyTokens(s.key) + (ArgumentsTokens(s.arguments) + BlockTokens(s.block)))
  }

  function SelectionsTokens(selections: seq<Selection>): seq<Token> {
    if selections == [] then [] else SelectionTokens(selections[0]) + SelectionsTokens(selections[1..])
  }

  /** Where a selection can end: before another one or the end of a block. */
  predicate Boundary(rest: seq<Token>) {
    rest == [] || rest[0].Word? || rest[0].Spread? || rest[0] == Mark('}')
  }

  /** The selection is one that the grammar has: blocks are not empty, and fragments have one but no alias or arguments. */
  predicate Strict(s: Selection) {
    && (IsFragment(s.key) ==> s.alias.None? && s.arguments == [] && s.block.Block?)
    && (s.block.Block? ==> s.block.selections != [] && forall t | t in s.block.selections :: Strict(t))
  }

  // What is read is strict.

  lemma {:induction false} BlockIsStrict(ts: seq<Token>)
    requires ReadBlock(ts).Some? && ReadBlock(ts).value.0.Block?
    ensures ReadBlock(ts).value.0.selections != [] && forall t | t in ReadBlock(ts).value.0.selections :: Strict(t)
    decreases |ts|, 1
  {
    SelectionsAreStrict(ts[1..]);
  }

  lemma NameIsNoFragment(key: string)
    requires IsName(key)
    ensures !IsFragment(key)
  {
    assert key[0] in key && !NameChar(ON[0]);
  }

  lemma {:induction false} FieldIsStrict(ts: seq<Token>)
    requires ReadField(ts).Some?
    ensures Strict(ReadField(ts).value.0)
    decreases |ts|, 2
  {
    var named := ReadAlias(ts).1;
    NameIsNoFragment(named[0].w);
    var rest := ReadArguments(named[1..]).value.1;
    if ReadBlock(rest).value.0.Block? {
      BlockIsStrict(rest);
    }
  }

  lemma {:induction false} FragmentIsStrict(ts: seq<Token>)
    requires ReadFragment(ts).Some?
    ensures Strict(ReadFragment(ts).value.0)
    decreases |ts|, 2
  {
    BlockIsStrict(ts[3..]);
  }

  lemma {:induction false} SelectionsAreStrict(ts: seq<Token>)
    requires ReadSelections(ts).Some?
    ensures forall t | t in ReadSelections(ts).value.0 :: Strict(t)
    decreases |ts|, 3
  {
    if ts != [] && (ts[0].Word? || ts[0].Spread?) {
      var first := if ts[0].Spread? then ReadFragment(ts) else ReadField(ts);
      if ts[0].Spread? {
        FragmentIsStrict(ts);
      } else {
        FieldIsStrict(ts);
      }
      SelectionsAreStrict(first.value.1);
    }
  }

  // Strict selections are read back.

  lemma AliasReads(alias: Option<string>, key: string, rest: seq<Token>)
    requires (alias.Some? ==> IsName(alias.value)) && IsName(key) && (rest == [] || rest[0] != Mark(':'))
    ensures ReadAlias(AliasTokens(alias) + ([Word(key)] + rest)) == (alias, [Word(key)] + rest)
  {
    var ts := AliasTokens(alias) + ([Word(key)] + rest);
    if alias.Some? {
      assert ts[2..] == [Word(key)] + rest;
    } else {
      assert ts == [Word(key)] + rest;
    }
  }

  lemma ArgumentsRead(arguments: seq<Entry>, rest: seq<Token>)
    requires SafeEntries(arguments) && !StartsWith(rest, '(')
    ensures ReadArguments(ArgumentsTokens(arguments) + rest) == Some((arguments, rest))
  {
    if arguments == [] {
      assert ArgumentsTokens(arguments) + rest == rest;
    } else {
      EntriesRead(arguments, [Mark(')')] + rest);
      EnclosedReads(EntriesTokens(arguments), arguments, rest);
    }
  }

  lemma EnclosedReads(inner: seq<Token>, arguments: seq<Entry>, rest: seq<Token>)
    requires ReadEntries(inner + ([Mark(')')] + rest)) == Some((arguments, [Mark(')')] + rest)) && arguments != []
    ensures ReadArguments([Mark('(')] + inner + [Mark(')')] + rest) == Some((arguments, rest))
  {
    var ts := [Mark('(')] + inner + [Mark(')')] + rest;
    assert ts[1..] == inner + ([Mark(')')] + rest);
    assert ([Mark(')')] + rest)[1..] == rest;
  }

  lemma {:induction false} BlockReads(block: Block, rest: seq<Token>)
    requires (block.Block? ==> block.selections != [] && forall t | t in block.selections :: SelectionSafe(t) && Strict(t)) && Boundary(rest)
    ensures ReadBlock(BlockTokens(block) + rest) == Some((block, rest))
    decreases block, 2
  {
    if block.NoBlock? {
      assert BlockTokens(block) + rest == rest;
    } else {
      SelectionsRead(block.selections, [Mark('}')] + rest);
      BracedReads(SelectionsTokens(block.selections), block.selections, rest);
    }
  }

  lemma BracedReads(inner: seq<Token>, selections: seq<Selection>, rest: seq<Token>)
    requires ReadSelections(inner + ([Mark('}')] + rest)) == Some((selections, [Mark('}')] + rest)) && selections != []
    ensures ReadBlock([Mark('{')] + inner + [Mark('}')] + rest) == Some((Block(selections), rest))
  {
    var ts := [Mark('{')] + inner + [Mark('}')] + rest;
    assert ts[1..] == inner + ([Mark('}')] + rest);
    assert ([Mark('}')] + rest)[1..] == rest;
  }

  /** The selection is read from its tokens, as a fragment or as a field. */
  predicate ReadsAs(ts: seq<Token>, s: Selection, rest: seq<Token>) {
    ts != []
    && if ts[0].Spread? then ReadFragment(ts) == Some((s, rest)) else ts[0].Word? && ReadField(ts) == Some((s, rest))
  }

  lemma FieldReads(s: Selection, rest: seq<Token>)
    requires SelectionSafe(s) && IsName(s.key) && Boundary(rest)
    requires ReadBlock(BlockTokens(s.block) + rest) == Some((s.block, rest))
    ensures ReadsAs(SelectionTokens(s) + rest, s, rest)
  {
    NameIsNoFragment(s.key);
    var afterArguments := BlockTokens(s.block) + rest;
    var afterKey := ArgumentsTokens(s.arguments) + afterArguments;
    assert !StartsWith(afterArguments, '(') && (afterArguments == [] || afterArguments[0] != Mark(':'));
    ArgumentsRead(s.arguments, afterArguments);
    assert afterKey == [] || afterKey[0] != Mark(':') by {
      assert s.arguments == [] ==> afterKey == afterArguments;
    }
    AliasReads(s.alias, s.key, afterKey);
    assert ([Word(s.key)] + afterKey)[1..] == afterKey;
    RegroupSelection(AliasTokens(s.alias), [Word(s.key)], ArgumentsTokens(s.arguments), BlockTokens(s.block), rest);
    if s.alias.None? {
      assert AliasTokens(s.alias) + ([Word(s.key)] + afterKey) == [Word(s.key)] + afterKey;
    }
  }

  lemma RegroupSelection<T>(a: seq<T>, k: seq<T>, arguments: seq<T>, block: seq<T>, rest: seq<T>)
    ensures (a + (k + (arguments + block))) + rest == a + (k + (arguments + (block + rest)))
  {
    Regroup(arguments, block, rest);
    Regroup(k, arguments + block, rest);
    Regroup(a, k + (arguments + block), rest);
  }

  lemma FragmentReads(s: Selection, rest: seq<Token>)
    requires IsFragment(s.key) && Strict(s)
    requires ReadBlock(BlockTokens(s.block) + rest) == Some((s.block, rest))
    ensures ReadsAs(SelectionTokens(s) + rest, s, rest)
  {
    RegroupSelection(AliasTokens(s.alias), KeyTokens(s.key), ArgumentsTokens(s.arguments), BlockTokens(s.block), rest);
    var ts := KeyTokens(s.key) + (BlockTokens(s.block) + rest);
    assert AliasTokens(s.alias) + (KeyTokens(s.key) + (ArgumentsTokens(s.arguments) + (BlockTokens(s.block) + rest))) == ts;
    assert ts[3..] == BlockTokens(s.block) + rest;
    assert ON + s.key[|ON|..] == s.key;
  }

  lemma {:induction false} SelectionReads(s: Selection, rest: seq<Token>)
    requires SelectionSafe(s) && Strict(s) && Boundary(rest)
    ensures ReadsAs(SelectionTokens(s) + rest, s, rest)
    decreases s, 0
  {
    BlockReads(s.block, rest);
    if IsFragment(s.key) {
      FragmentReads(s, rest);
    } else {
      FieldReads(s, rest);
    }
  }

  lemma SelectionStarts(s: Selection, rest: seq<Token>)
    ensures var ts := SelectionTokens(s) + rest; ts != [] && (ts[0].Word? || ts[0].Spread?)
  {
    if s.alias.None? {
      assert SelectionTokens(s)[0] == KeyTokens(s.key)[0];
    }
  }

  lemma FirstSelectionReads(ts: seq<Token>, s: Selection, more: seq<Token>, selections: seq<Selection>, rest: seq<Token>)
    requires ReadsAs(ts, s, more) && ReadSelections(more) == Some((selections, rest))
    ensures ReadSelections(ts) == Some(([s] + selections, rest))
  {
  }

  lemma {:induction false} SelectionsRead(selections: seq<Selection>, rest: seq<Token>)
    requires (forall t | t in selections :: SelectionSafe(t) && Strict(t)) && (rest == [] || rest[0] == Mark('}'))
    ensures ReadSelections(SelectionsTokens(selections) + rest) == Some((selections, rest))
    decreases selections, 1
  {
    if selections == [] {
      assert SelectionsTokens(selections) + rest == rest;
    } else {
      var more := SelectionsTokens(selections[1..]) + rest;
      MoreIsBoundary(selections, rest);
      SelectionReads(selections[0], more);
      SelectionsRead(selections[1..], rest);
      SelectionsFollow(selections[0], selections[1..], rest);
      assert [selections[0]] + selections[1..] == selections;
    }
  }

  lemma SelectionsFollow(s: Selection, selections: seq<Selection>, rest: seq<Token>)
    requires var more := SelectionsTokens(selections) + rest;
             ReadsAs(SelectionTokens(s) + more, s, more) && ReadSelections(more) == Some((selections, rest))
    ensures ReadSelections(SelectionsTokens([s] + selections) + rest) == Some(([s] + selections, rest))
  {
    assert ([s] + selections)[1..] == selections && ([s] + selections)[0] == s;
    Regroup(SelectionTokens(s), SelectionsTokens(selections), rest);
    FirstSelectionReads(SelectionTokens(s) + (SelectionsTokens(selections) + rest), s, SelectionsTokens(selections) + rest, selections, rest);
  }

  // Other selections are refused.

  lemma {:induction false} BlockFails(block: Block, rest: seq<Token>)
    requires block.Block? && (forall t | t in block.selections :: SelectionSafe(t))
    requires block.selections == [] || exists t | t in block.selections :: !Strict(t)
    ensures ReadBlock(BlockTokens(block) + rest).None?
    decreases block, 2
  {
    if block.selections == [] {
      assert SelectionsTokens(block.selections) + ([Mark('}')] + rest) == [Mark('}')] + rest;
    } else {
      SelectionsFail(block.selections, [Mark('}')] + rest);
    }
    BracedFails(SelectionsTokens(block.selections), rest);
  }

  lemma BracedFails(inner: seq<Token>, rest: seq<Token>)
    requires var r := ReadSelections(inner + ([Mark('}')] + rest)); r.None? || r.value.0 == []
    ensures ReadBlock([Mark('{')] + inner + [Mark('}')] + rest).None?
  {
    var ts := [Mark('{')] + inner + [Mark('}')] + rest;
    assert ts[1..] == inner + ([Mark('}')] + rest);
  }

  predicate Refused(ts: seq<Token>) {
    ts != [] && if ts[0].Spread? then ReadFragment(ts).None? else ts[0].Word? && ReadField(ts).None?
  }

  lemma FieldFails(s: Selection, rest: seq<Token>)
    requires SelectionSafe(s) && IsName(s.key) && ReadBlock(BlockTokens(s.block) + rest).None? && s.block.Block?
    ensures Refused(SelectionTokens(s) + rest)
  {
    NameIsNoFragment(s.key);
    var afterArguments := BlockTokens(s.block) + rest;
    var afterKey := ArgumentsTokens(s.arguments) + afterArguments;
    ArgumentsRead(s.arguments, afterArguments);
    assert afterKey[0] != Mark(':') by {
      assert s.arguments == [] ==> afterKey == afterArguments;
    }
    AliasReads(s.alias, s.key, afterKey);
    assert ([Word(s.key)] + afterKey)[1..] == afterKey;
    RegroupSelection(AliasTokens(s.alias), [Word(s.key)], ArgumentsTokens(s.arguments), BlockTokens(s.block), rest);
    if s.alias.None? {
      assert AliasTokens(s.alias) + ([Word(s.key)] + afterKey) == [Word(s.key)] + afterKey;
    }
  }

  lemma FragmentFails(s: Selection, rest: seq<Token>)
    requires SelectionSafe(s) && IsFragment(s.key) && Boundary(rest)
    requires s.alias.Some? || s.arguments != [] || s.block.NoBlock? || ReadBlock(BlockTokens(s.block) + rest).None?
    ensures Refused(SelectionTokens(s) + rest)
  {
    RegroupSelection(AliasTokens(s.alias), KeyTokens(s.key), ArgumentsTokens(s.arguments), BlockTokens(s.block), rest);
    var afterKey := ArgumentsTokens(s.arguments) + (BlockTokens(s.block) + rest);
    var ts := SelectionTokens(s) + rest;
    if s.alias.Some? {
      assert ts[2..] == KeyTokens(s.key) + afterKey;
    } else {
      assert ts == KeyTokens(s.key) + afterKey && ts[3..] == afterKey;
      if s.arguments == [] {
        assert afterKey == BlockTokens(s.block) + rest;
      }
      if s.arguments == [] && s.block.NoBlock? {
        assert afterKey == rest;
      }
    }
  }

  lemma {:induction false} SelectionFails(s: Selection, rest: seq<Token>)
    requires SelectionSafe(s) && !Strict(s) && Boundary(rest)
    ensures Refused(SelectionTokens(s) + rest)
    decreases s, 0
  {
    if IsFragment(s.key) && !(s.alias.None? && s.arguments == [] && s.block.Block?) {
      FragmentFails(s, rest);
    } else {
      BlockFails(s.block, rest);
      if IsFragment(s.key) {
        FragmentFails(s, rest);
      } else {
        FieldFails(s, rest);
      }
    }
  }

  lemma {:induction false} SelectionsFail(selections: seq<Selection>, rest: seq<Token>)
    requires (forall t | t in selections :: SelectionSafe(t)) && (exists t | t in selections :: !Strict(t))
    requires rest == [] || rest[0] == Mark('}')
    ensures ReadSelections(SelectionsTokens(selections) + rest).None?
    decreases selections, 1
  {
    var s, more := selections[0], SelectionsTokens(selections[1..]) + rest;
    MoreIsBoundary(selections, rest);
    Regroup(SelectionTokens(s), SelectionsTokens(selections[1..]), rest);
    if Strict(s) {
      assert selections == [s] + selections[1..];
      SelectionReads(s, more);
      SelectionsFail(selections[1..], rest);
    } else {
      SelectionFails(s, more);
    }
  }

  lemma MoreIsBoundary(selections: seq<Selection>, rest: seq<Token>)
    requires selections != [] && (rest == [] || rest[0] == Mark('}'))
    ensures Boundary(SelectionsTokens(selections[1..]) + rest)
  {
    if selections[1..] == [] {
      assert SelectionsTokens(selections[1..]) + rest == rest;
    } else {
      SelectionStarts(selections[1], SelectionsTokens(selections[1..][1..]) + rest);
      Regroup(SelectionTokens(selections[1]), SelectionsTokens(selections[1..][1..]), rest);
    }
  }

  // ---------- The text of queries ----------

  lemma LexLine(offset: nat, content: string, ts: seq<Token>)
    requires Lexes(content + "\n", ts)
    ensures Lexes(Spaces(offset) + content + "\n", ts) && Lexes(Joined([Spaces(offset) + content]), ts)
  {
    LexSpaces(offset);
    LexBoth(Spaces(offset), [], content + "\n", ts);
    Regroup(Spaces(offset), content, "\n");
    assert [] + ts == ts;
    var line := Spaces(offset) + content;
    assert [line][1..] == [];
    assert Joined([line]) == line + "\n" + "" == line + "\n";
  }

  lemma LexEnd(c: char)
    requires IsMark(c)
    ensures Lexes([c] + "\n", [Mark(c)])
  {
    LexIgnored('\n');
    LexMarked(c, "\n", []);
    assert [Mark(c)] + [] == [Mark(c)];
  }

  lemma LexKey(key: string, p: string, ts: seq<Token>)
    requires (IsName(key) || IsFragment(key)) && Delimits(p) && Lexes(p, ts)
    ensures Lexes(key + p, KeyTokens(key) + ts)
  {
    if IsFragment(key) {
      var name := key[|ON|..];
      LexWord(name, p, ts);
      LexSkipped(' ', name + p, [Word(name)] + ts);
      LexWord("on", " " + (name + p), [Word(name)] + ts);
      LexSpread("on" + (" " + (name + p)), [Word("on")] + ([Word(name)] + ts));
      FragmentText(key, p);
      assert KeyTokens(key) + ts == [Spread] + ([Word("on")] + ([Word(name)] + ts));
    } else {
      LexWord(key, p, ts);
    }
  }

  lemma FragmentText(key: string, p: string)
    requires IsFragment(key)
    ensures key + p == "..." + ("on" + (" " + (key[|ON|..] + p)))
  {
    assert key == ON + key[|ON|..];
  }

  lemma LexKeyText(key: string, entries: seq<Entry>, p: string, ts: seq<Token>)
    requires (IsName(key) || IsFragment(key)) && (AliasOf(entries).Some? ==> IsName(AliasOf(entries).value))
    requires Delimits(p) && Lexes(p, ts)
    ensures Lexes(KeyText(key, entries) + p, AliasTokens(AliasOf(entries)) + (KeyTokens(key) + ts))
  {
    LexKey(key, p, ts);
    if AliasOf(entries).Some? {
      LexLabel(AliasOf(entries).value, key + p, KeyTokens(key) + ts);
      Regroup(AliasOf(entries).value + ": ", key, p);
    } else {
      assert [] + (KeyTokens(key) + ts) == KeyTokens(key) + ts;
    }
  }

  lemma LexOpening(key: string, entries: seq<Entry>)
    requires (IsName(key) || IsFragment(key)) && (AliasOf(entries).Some? ==> IsName(AliasOf(entries).value))
    requires Blocky(entries) && SafeEntries(FiltersOf(entries))
    ensures Lexes(OpeningText(key, entries) + "\n",
                  AliasTokens(AliasOf(entries)) + (KeyTokens(key) + (ArgumentsTokens(FiltersOf(entries)) + [Mark('{')])))
  {
    var filters := FiltersOf(entries);
    LexEnd('{');
    LexSkipped(' ', "{" + "\n", [Mark('{')]);
    var tail := " " + ("{" + "\n");
    if filters != [] {
      LexMarked(')', tail, [Mark('{')]);
      FiltersLex(filters, ")" + tail, [Mark(')')] + [Mark('{')]);
      LexMarked('(', ConvertFilters(filters) + (")" + tail), EntriesTokens(filters) + ([Mark(')')] + [Mark('{')]));
      var text := "(" + (ConvertFilters(filters) + (")" + tail));
      LexKeyText(key, entries, text, [Mark('(')] + (EntriesTokens(filters) + ([Mark(')')] + [Mark('{')])));
      assert [Mark('(')] + (EntriesTokens(filters) + ([Mark(')')] + [Mark('{')])) == ArgumentsTokens(filters) + [Mark('{')];
      assert text == ("(" + ConvertFilters(filters) + ") {") + "\n";
      Regroup(KeyText(key, entries), "(" + ConvertFilters(filters) + ") {", "\n");
    } else {
      LexKeyText(key, entries, tail, [Mark('{')]);
      assert tail == " {" + "\n" && [] + [Mark('{')] == [Mark('{')];
      Regroup(KeyText(key, entries), " {", "\n");
    }
  }

  lemma {:induction false} SelectionsParts(a: seq<Selection>, b: seq<Selection>)
    ensures SelectionsTokens(a + b) == SelectionsTokens(a) + SelectionsTokens(b)
  {
    if a == [] {
      assert a + b == b && [] + SelectionsTokens(b) == SelectionsTokens(b);
    } else {
      assert (a + b)[1..] == a[1..] + b;
      SelectionsParts(a[1..], b);
      Regroup(SelectionTokens(a[0]), SelectionsTokens(a[1..]), SelectionsTokens(b));
    }
  }

  lemma OneSelection(s: Selection)
    ensures SelectionsTokens([s]) == SelectionTokens(s)
  {
    assert [s][1..] == [];
    assert SelectionTokens(s) + [] == SelectionTokens(s);
  }

  lemma LexLeaf(key: string, entries: seq<Entry>, offset: nat)
    requires (IsName(key) || IsFragment(key)) && (AliasOf(entries).Some? ==> IsName(AliasOf(entries).value))
    ensures Lexes(Joined([Spaces(offset) + KeyText(key, entries)]), SelectionsTokens([Selection(AliasOf(entries), key, [], NoBlock)]))
  {
    var s := Selection(AliasOf(entries), key, [], NoBlock);
    LexIgnored('\n');
    LexKeyText(key, entries, "\n", []);
    OneSelection(s);
    LexLine(offset, KeyText(key, entries), AliasTokens(s.alias) + (KeyTokens(key) + []));
    assert ArgumentsTokens([]) + BlockTokens(NoBlock) == [];
  }

  lemma LexEnclosed(offset: nat, opening: string, inner: seq<string>, s: Selection)
    requires s.block.Block?
    requires Lexes(opening + "\n", AliasTokens(s.alias) + (KeyTokens(s.key) + (ArgumentsTokens(s.arguments) + [Mark('{')])))
    requires Lexes(Joined(inner), SelectionsTokens(s.block.selections))
    ensures Lexes(Joined([Spaces(offset) + opening] + inner + [Spaces(offset) + "}"]), SelectionsTokens([s]))
  {
    var head := AliasTokens(s.alias) + (KeyTokens(s.key) + (ArgumentsTokens(s.arguments) + [Mark('{')]));
    var body := SelectionsTokens(s.block.selections);
    var first, last := [Spaces(offset) + opening], [Spaces(offset) + "}"];
    LexLine(offset, opening, head);
    LexEnd('}');
    LexLine(offset, "}", [Mark('}')]);
    LexBoth(Joined(first), head, Joined(inner), body);
    LexBoth(Joined(first) + Joined(inner), head + body, Joined(last), [Mark('}')]);
    JoinedParts(first, inner);
    JoinedParts(first + inner, last);
    OneSelection(s);
    BlockClosed(AliasTokens(s.alias), KeyTokens(s.key), ArgumentsTokens(s.arguments), body);
  }

  lemma BlockClosed(a: seq<Token>, k: seq<Token>, arguments: seq<Token>, body: seq<Token>)
    ensures (a + (k + (arguments + [Mark('{')]))) + body + [Mark('}')] == a + (k + (arguments + ([Mark('{')] + body + [Mark('}')])))
  {
    Regroup(a, k + (arguments + [Mark('{')]), body);
    Regroup(k, arguments + [Mark('{')], body);
    Regroup(arguments, [Mark('{')], body);
    Regroup(a, k + (arguments + ([Mark('{')] + body)), [Mark('}')]);
    Regroup(k, arguments + ([Mark('{')] + body), [Mark('}')]);
    Regroup(arguments, [Mark('{')] + body, [Mark('}')]);
  }

  lemma {:induction false} QueryLexes(data: seq<Entry>, offset: nat, indentation: nat)
    requires Renderable(data) && QuerySafe(data)
    ensures Lexes(Joined(QueryLines(data, offset, indentation)), SelectionsTokens(Meant(data)))
    decreases data, 1
  {
    if data == [] {
      LexNothing();
    } else {
      var e := data[0];
      EntryLexes(e, offset, indentation);
      QueryLexes(data[1..], offset, indentation);
      var a, b := EntryLines(e, offset, indentation), QueryLines(data[1..], offset, indentation);
      LexBoth(Joined(a), SelectionsTokens(MeantBy(e)), Joined(b), SelectionsTokens(Meant(data[1..])));
      JoinedParts(a, b);
      SelectionsParts(MeantBy(e), Meant(data[1..]));
    }
  }

  lemma {:induction false} EntryLexes(e: Entry, offset: nat, indentation: nat)
    requires Renderable([e]) && QuerySafe([e])
    ensures Lexes(Joined(EntryLines(e, offset, indentation)), SelectionsTokens(MeantBy(e)))
    decreases e, 0
  {
    assert e in [e];
    LexNothing();
    if !Keyword(e.key) {
      if e.value.Nothing? {
        LexLeaf(e.key, [], offset);
      } else if e.value.Dict? {
        var entries := e.value.entries;
        if |entries| == 1 && AliasOf(entries).Some? {
          LexLeaf(e.key, entries, offset);
        } else {
          QueryLexes(entries, offset + indentation, indentation);
          LexOpening(e.key, entries);
          var s := Selection(AliasOf(entries), e.key, FiltersOf(entries), Block(Meant(entries)));
          LexEnclosed(offset, OpeningText(e.key, entries), QueryLines(entries, offset + indentation, indentation), s);
        }
      }
    }
  }

  /** The entry prints something. */
  predicate Prints(e: Entry) {
    !Keyword(e.key) && (e.value.Nothing? || e.value.Dict?)
  }

  /** Every dictionary that is printed as a block has something to print, and every fragment is printed as a block without an alias
      and without arguments. */
  predicate Grammatical(data: seq<Entry>) {
    && (exists e | e in data :: Prints(e))
    && EntriesGrammatical(data)
  }

  predicate EntriesGrammatical(data: seq<Entry>) {
    forall e | e in data && Prints(e) :: EntryGrammatical(e)
  }

  predicate EntryGrammatical(e: Entry) {
    match e.value
    case Dict(entries) =>
      if |entries| == 1 && AliasOf(entries).Some? then !IsFragment(e.key)
      else
        && (IsFragment(e.key) ==> AliasOf(entries).None? && FiltersOf(entries) == [])
        && (exists f | f in entries :: Prints(f)) && EntriesGrammatical(entries)
    case _ => !IsFragment(e.key)
  }

  lemma {:induction false} MeantSomething(data: seq<Entry>)
    ensures Meant(data) != [] <==> exists e | e in data :: Prints(e)
  {
    if data != [] {
      MeantSomething(data[1..]);
      assert data == [data[0]] + data[1..];
      assert MeantBy(data[0]) != [] <==> Prints(data[0]);
    }
  }

  lemma {:induction false} GrammaticalIsStrict(data: seq<Entry>)
    ensures EntriesGrammatical(data) <==> forall s | s in Meant(data) :: Strict(s)
  {
    if data != [] {
      GrammaticalIsStrict(data[1..]);
      assert data == [data[0]] + data[1..];
      EntryIsStrict(data[0]);
      assert Meant(data) == MeantBy(data[0]) + Meant(data[1..]);
    }
  }

  lemma {:induction false} EntryIsStrict(e: Entry)
    ensures Prints(e) ==> (EntryGrammatical(e) <==> forall s | s in MeantBy(e) :: Strict(s))
    ensures !Prints(e) ==> MeantBy(e) == []
  {
    if Prints(e) {
      var s := MeantBy(e)[0];
      assert MeantBy(e) == [s] && s in MeantBy(e);
      if e.value.Dict? {
        GrammaticalIsStrict(e.value.entries);
        MeantSomething(e.value.entries);
      }
      assert EntryGrammatical(e) <==> Strict(s);
    }
  }

  /** A rendered query block, whatever its indentation, reads as the selection set that the dictionary stands for exactly when its
      names and values are safe and it is grammatical; if only that last is missing, it is no GraphQL at all. */
  lemma QueryRoundTrip(data: seq<Entry>, offset: nat, indentation: nat)
    requires Renderable(data)
    ensures ReadQuery(Joined(QueryLines(data, offset, indentation))) == Some(Meant(data)) <==> QuerySafe(data) && Grammatical(data)
    ensures QuerySafe(data) && !Grammatical(data) ==> ReadQuery(Joined(QueryLines(data, offset, indentation))) == None
  {
    if QuerySafe(data) {
      SafeQueryRoundTrip(data, offset, indentation);
    } else if ReadQuery(Joined(QueryLines(data, offset, indentation))) == Some(Meant(data)) {
      ReadQueryIsSafe(data, offset, indentation);
    }
  }

  lemma SafeQueryRoundTrip(data: seq<Entry>, offset: nat, indentation: nat)
    requires Renderable(data) && QuerySafe(data)
    ensures ReadQuery(Joined(QueryLines(data, offset, indentation))) == if Grammatical(data) then Some(Meant(data)) else None
  {
    var text, tokens := Joined(QueryLines(data, offset, indentation)), SelectionsTokens(Meant(data));
    QueryLexes(data, offset, indentation);
    WholeText(text, tokens);
    MeantIsSafe(data);
    MeantSomething(data);
    GrammaticalIsStrict(data);
    assert tokens + [] == tokens;
    if EntriesGrammatical(data) {
      SelectionsRead(Meant(data), []);
    } else {
      SelectionsFail(Meant(data), []);
    }
  }

  lemma WholeText(text: string, tokens: seq<Token>)
    requires Lexes(text, tokens)
    ensures Lex(text) == Some(tokens)
  {
    assert LexesBefore(text, tokens, "");
    assert text + "" == text && tokens + [] == tokens;
  }

  // ---------- The text of input data ----------

  /** Lines that open a bracket, hold what is inside and close it. */
  lemma LexBracketed(offset: nat, opening: string, head: seq<Token>, inner: seq<string>, body: seq<Token>, closing: string, last: seq<Token>)
    requires Lexes(opening + "\n", head) && Lexes(Joined(inner), body) && Lexes(closing + "\n", last)
    ensures Lexes(Joined([Spaces(offset) + opening] + inner + [Spaces(offset) + closing]), head + body + last)
  {
    LexLine(offset, opening, head);
    LexLine(offset, closing, last);
    LexBoth(Joined([Spaces(offset) + opening]), head, Joined(inner), body);
    LexBoth(Joined([Spaces(offset) + opening]) + Joined(inner), head + body, Joined([Spaces(offset) + closing]), last);
    JoinedParts([Spaces(offset) + opening], inner);
    JoinedParts([Spaces(offset) + opening] + inner, [Spaces(offset) + closing]);
  }

  lemma LexLabelledMark(key: string, c: char)
    requires IsName(key) && IsMark(c)
    ensures Lexes(key + ": " + [c] + "\n", [Word(key), Mark(':'), Mark(c)])
  {
    LexEnd(c);
    LexLabel(key, [c] + "\n", [Mark(c)]);
    Regroup(key + ": ", [c], "\n");
    assert [Word(key), Mark(':')] + [Mark(c)] == [Word(key), Mark(':'), Mark(c)];
  }

  lemma LexEndComma(c: char)
    requires IsMark(c)
    ensures Lexes([c] + "," + "\n", [Mark(c)])
  {
    LexIgnored('\n');
    LexSkipped(',', "\n", []);
    LexMarked(c, "," + "\n", []);
    Regroup([c], ",", "\n");
    assert [Mark(c)] + [] == [Mark(c)];
  }

  lemma LexScalarEntry(e: Entry, offset: nat)
    requires IsName(e.key) && Convertible(e.value) && Safe(e.value)
    ensures Lexes(Joined([Spaces(offset) + e.key + ": " + ConvertToGraphqlAsString(e.value)]), EntryTokens(e))
  {
    LexIgnored('\n');
    ArgumentLexes(e, "\n", []);
    assert EntryTokens(e) + [] == EntryTokens(e);
    var content := e.key + ": " + ConvertToGraphqlAsString(e.value);
    LexLine(offset, content, EntryTokens(e));
    assert Spaces(offset) + content == Spaces(offset) + e.key + ": " + ConvertToGraphqlAsString(e.value);
  }

  lemma LexScalarItem(v: Value, offset: nat)
    requires Convertible(v) && Safe(v)
    ensures Lexes(Joined([Spaces(offset) + ConvertToGraphqlAsString(v) + ","]), ValueTokens(v))
  {
    LexIgnored('\n');
    LexSkipped(',', "\n", []);
    ConvertLexes(v, "," + "\n", []);
    assert ValueTokens(v) + [] == ValueTokens(v);
    var text := ConvertToGraphqlAsString(v);
    Regroup(text, ",", "\n");
    LexLine(offset, text + ",", ValueTokens(v));
    Regroup(Spaces(offset), text, ",");
  }

  lemma {:induction false} InputLexes(data: seq<Entry>, offset: nat, indentation: nat)
    requires InputRenderable(data) && SafeEntries(data)
    ensures Lexes(Joined(InputLines(data, offset, indentation)), EntriesTokens(data))
    decreases data, 1
  {
    if data == [] {
      LexNothing();
    } else {
      InputEntryLexes(data[0], offset, indentation);
      InputLexes(data[1..], offset, indentation);
      var a, b := InputEntryLines(data[0], offset, indentation), InputLines(data[1..], offset, indentation);
      LexBoth(Joined(a), EntryTokens(data[0]), Joined(b), EntriesTokens(data[1..]));
      JoinedParts(a, b);
    }
  }

  lemma {:induction false} InputEntryLexes(e: Entry, offset: nat, indentation: nat)
    requires ValueRenderable(e.value) && IsName(e.key) && Safe(e.value)
    ensures Lexes(Joined(InputEntryLines(e, offset, indentation)), EntryTokens(e))
    decreases e, 0
  {
    match e.value
    case Dict(entries) =>
      var inner := InputLines(entries, offset + indentation, indentation);
      InputLexes(entries, offset + indentation, indentation);
      LexLabelledMark(e.key, '{');
      assert e.key + ": " + ['{'] == e.key + ": {";
      LexEnd('}');
      LexBracketed(offset, e.key + ": {", [Word(e.key), Mark(':'), Mark('{')], inner, EntriesTokens(entries), "}", [Mark('}')]);
      SameOpening(offset, e.key, ": {");
      LabelThenBody(e.key, '{', EntriesTokens(entries), '}');
    case List(items) =>
      var inner := ItemLines(items, offset, indentation);
      ItemLinesLex(items, offset, indentation);
      LexLabelledMark(e.key, '[');
      assert e.key + ": " + ['['] == e.key + ": [";
      LexEnd(']');
      LexBracketed(offset, e.key + ": [", [Word(e.key), Mark(':'), Mark('[')], inner, ItemsTokens(items), "]", [Mark(']')]);
      SameOpening(offset, e.key, ": [");
      LabelThenBody(e.key, '[', ItemsTokens(items), ']');
    case _ =>
      LexScalarEntry(e, offset);
  }

  lemma SameOpening(offset: nat, key: string, text: string)
    ensures Spaces(offset) + (key + text) == Spaces(offset) + key + text
  {
  }

  lemma LabelThenBody(key: string, open: char, body: seq<Token>, close: char)
    ensures [Word(key), Mark(':'), Mark(open)] + body + [Mark(close)] == [Word(key), Mark(':')] + ([Mark(open)] + body + [Mark(close)])
  {
  }

  lemma {:induction false} ItemLinesLex(items: seq<Value>, offset: nat, indentation: nat)
    requires forall i | i in items :: (if i.Dict? then InputRenderable(i.entries) else Convertible(i)) && Safe(i)
    ensures Lexes(Joined(ItemLines(items, offset, indentation)), ItemsTokens(items))
    decreases items, 1
  {
    if items == [] {
      LexNothing();
    } else {
      OneItemLexes(items[0], offset, indentation);
      ItemLinesLex(items[1..], offset, indentation);
      var a, b := OneItemLines(items[0], offset, indentation), ItemLines(items[1..], offset, indentation);
      LexBoth(Joined(a), ValueTokens(items[0]), Joined(b), ItemsTokens(items[1..]));
      JoinedParts(a, b);
    }
  }

  lemma {:induction false} OneItemLexes(item: Value, offset: nat, indentation: nat)
    requires (if item.Dict? then InputRenderable(item.entries) else Convertible(item)) && Safe(item)
    ensures Lexes(Joined(OneItemLines(item, offset, indentation)), ValueTokens(item))
    decreases item, 0
  {
    if item.Dict? {
      var inner := InputLines(item.entries, offset + indentation + indentation, indentation);
      InputLexes(item.entries, offset + indentation + indentation, indentation);
      LexEnd('{');
      LexEndComma('}');
      assert ['}'] + "," == "},";
      LexBracketed(offset + indentation, "{", [Mark('{')], inner, EntriesTokens(item.entries), "},", [Mark('}')]);
    } else {
      LexScalarItem(item, offset + indentation);
    }
  }

  /** A rendered input block, read as GraphQL, is the input data itself exactly when that is safe. */
  lemma InputRoundTrip(data: seq<Entry>, offset: nat, indentation: nat)
    requires InputRenderable(data)
    ensures ReadInput(Joined(InputLines(data, offset, indentation))) == Some(data) <==> SafeEntries(data)
  {
    if SafeEntries(data) {
      InputLexes(data, offset, indentation);
      WholeText(Joined(InputLines(data, offset, indentation)), EntriesTokens(data));
      EntriesRead(data, []);
      assert EntriesTokens(data) + [] == EntriesTokens(data);
    } else if ReadInput(Joined(InputLines(data, offset, indentation))) == Some(data) {
      ReadInputIsSafe(data, offset, indentation);
    }
  }

  /** A text is written so that it can be read back exactly when it is a variable or none of its characters needs an escape. */
  lemma TextRoundTrip(s: string)
    ensures ReadOneValue(ConvertToGraphqlAsString(Text(s))) == Some(Text(s)) <==> SafeText(s)
  {
    var text := ConvertToGraphqlAsString(Text(s));
    if SafeText(s) {
      SafeTextLexes(s);
      ValueReads(Text(s), []);
      assert ValueTokens(Text(s)) + [] == ValueTokens(Text(s));
    } else if s == "" || s[0] != '$' {
      QuotedIsSafe(text);
    } else if Lex(text).Some? {
      assert Lex(text).value[0] == Word(text[..WordRun(text)]);
    }
  }

  /** Whatever is read from a quoted text is safe. */
  lemma QuotedIsSafe(text: string)
    requires text != "" && text[0] == '"'
    ensures match ReadOneValue(text) case Some(Text(s)) => forall c | c in s :: TextChar(c) case _ => true
  {
    var n := TextRun(text[1..]);
    if Lex(text).Some? {
      assert Lex(text).value[0] == Quoted(text[1..n + 1]);
      assert text[1..][..n] == text[1..n + 1];
    }
  }

  lemma SafeTextLexes(s: string)
    requires SafeText(s)
    ensures Lex(ConvertToGraphqlAsString(Text(s))) == Some(ValueTokens(Text(s)))
  {
    if s != "" && s[0] == '$' {
      assert s == [s[0]] + s[1..];
      RunOfWord(s, "");
      assert s + "" == s;
      assert s[|s|..] == "" && s[..|s|] == s;
      assert Lex(s) == Glue([Word(s)], Lex(""));
      assert [Word(s)] + [] == [Word(s)];
    } else {
      LexQuotedBefore(s, "");
      assert "\"" + s + "\"" + "" == "\"" + s + "\"" && [Quoted(s)] + [] == [Quoted(s)];
    }
  }
}
