/** A reader for the GraphQL that the printer writes: tokens and the grammar of selection sets, fields, arguments, aliases, inline
    fragments and input values in sections 2.1, 2.4-2.9 of the GraphQL specification (October 2021). It takes no text that the
    grammar refuses: selection sets and argument lists are not empty, and a fragment has a block but no alias or arguments. */
module GraphQLReader {
  import opened Common
  import opened GraphQLPrinter
  import Encodings

  /** The `$` of a variable belongs to its word. */
  datatype Token = Mark(c: char) | Spread | Word(w: string) | Quoted(s: string)

  // ---------- From text to tokens ----------

  predicate Ignored(c: char) {
    c in " ,\n\r\t"
  }

  predicate IsMark(c: char) {
    c in "{}()[]:"
  }

  predicate NameChar(c: char) {
    'a' <= c <= 'z' || 'A' <= c <= 'Z' || '0' <= c <= '9' || c == '_'
  }

  predicate WordChar(c: char) {
    NameChar(c) || c == '-' || c == '$'
  }

  /** A character of the specification's source text that can stand in a text as it is. */
  predicate TextChar(c: char) {
    c != '"' && c != '\\' && (c == '\t' || ' ' <= c <= '\U{FFFF}')
  }

  predicate IsName(s: string) {
    s != "" && !('0' <= s[0] <= '9') && forall c | c in s :: NameChar(c)
  }

  predicate IsWord(s: string) {
    s != "" && forall c | c in s :: WordChar(c)
  }

  /** How many characters of the text belong to the word it starts with. */
  function WordRun(s: string): (n: nat)
    ensures n <= |s|
  {
    if s == "" || !WordChar(s[0]) then 0 else 1 + WordRun(s[1..])
  }

  function TextRun(s: string): (n: nat)
    ensures n <= |s| && forall c :: c in s[..n] ==> TextChar(c)
    ensures n < |s| ==> !TextChar(s[n])
  {
    if s == "" || !TextChar(s[0]) then 0 else 1 + TextRun(s[1..])
  }

  function Glue(tokens: seq<Token>, rest: Option<seq<Token>>): Option<seq<Token>> {
    if rest.None? then None else Some(tokens + rest.value)
  }

  /** The tokens of a text, or None if some part of it is no token. */
  function Lex(s: string): Option<seq<Token>>
    decreases |s|
  {
    if s == "" then Some([])
    else if Ignored(s[0]) then Lex(s[1..])
    else if IsMark(s[0]) then Glue([Mark(s[0])], Lex(s[1..]))
    else if s[0] == '.' then (if |s| >= 3 && s[..3] == "..." then Glue([Spread], Lex(s[3..])) else None)
    else if WordChar(s[0]) then Glue([Word(s[..WordRun(s)])], Lex(s[WordRun(s)..]))
    else if s[0] == '"' then
      var n := TextRun(s[1..]);
      if n + 1 < |s| && s[n + 1] == '"' && !(n + 2 < |s| && s[n + 2] == '"') then Glue([Quoted(s[1..n + 1])], Lex(s[n + 2..]))
      else None
    else None
  }

  ghost predicate LexesBefore(piece: string, tokens: seq<Token>, rest: string) {
    Lex(piece + rest) == Glue(tokens, Lex(rest))
  }

  /** Whatever comes after it, the piece gives these tokens. */
  ghost predicate Lexes(piece: string, tokens: seq<Token>) {
    forall rest: string :: LexesBefore(piece, tokens, rest)
  }

  lemma LexNothing()
    ensures Lexes("", [])
  {
    forall rest: string ensures LexesBefore("", [], rest) {
      assert "" + rest == rest;
      if Lex(rest).Some? {
        assert [] + Lex(rest).value == Lex(rest).value;
      }
    }
  }

  lemma LexBoth(p: string, ts: seq<Token>, q: string, us: seq<Token>)
    requires Lexes(p, ts) && Lexes(q, us)
    ensures Lexes(p + q, ts + us)
  {
    forall rest: string ensures LexesBefore(p + q, ts + us, rest) {
      assert LexesBefore(p, ts, q + rest) && LexesBefore(q, us, rest);
      assert (p + q) + rest == p + (q + rest);
      if Lex(rest).Some? {
        assert (ts + us) + Lex(rest).value == ts + (us + Lex(rest).value);
      }
    }
  }

  lemma LexIgnored(c: char)
    requires Ignored(c)
    ensures Lexes([c], [])
  {
    forall rest: string ensures LexesBefore([c], [], rest) {
      assert ([c] + rest)[1..] == rest;
      if Lex(rest).Some? {
        assert [] + Lex(rest).value == Lex(rest).value;
      }
    }
  }

  lemma LexMark(c: char)
    requires IsMark(c)
    ensures Lexes([c], [Mark(c)])
  {
    forall rest: string ensures LexesBefore([c], [Mark(c)], rest) {
      assert ([c] + rest)[1..] == rest;
    }
  }

  lemma {:induction false} LexSpaces(n: nat)
    ensures Lexes(Spaces(n), [])
  {
    if n == 0 {
      LexNothing();
      assert Spaces(0) == "";
    } else {
      LexSpaces(n - 1);
      LexIgnored(' ');
      var none: seq<Token> := [];
      LexBoth(" ", none, Spaces(n - 1), none);
      assert none + none == none;
      assert " " + Spaces(n - 1) == Spaces(n);
    }
  }

  lemma {:induction false} RunOfWord(w: string, rest: string)
    requires forall c | c in w :: WordChar(c)
    requires rest == "" || !WordChar(rest[0])
    ensures WordRun(w + rest) == |w|
  {
    if w == "" {
      assert w + rest == rest;
    } else {
      RunOfWord(w[1..], rest);
      assert (w + rest)[1..] == w[1..] + rest;
    }
  }

  lemma LexSpread(p: string, ts: seq<Token>)
    requires Lexes(p, ts)
    ensures Lexes("..." + p, [Spread] + ts)
  {
    forall rest: string ensures LexesBefore("..." + p, [Spread] + ts, rest) {
      var s := ("..." + p) + rest;
      assert s[..3] == "..." && s[3..] == p + rest;
      assert LexesBefore(p, ts, rest);
      if Lex(rest).Some? {
        assert ([Spread] + ts) + Lex(rest).value == [Spread] + (ts + Lex(rest).value);
      }
    }
  }

  /** The text goes on with something that is part of neither a word nor a quoted text. */
  predicate Delimits(p: string) {
    p != "" && !WordChar(p[0]) && p[0] != '"'
  }

  lemma LexWord(w: string, p: string, ts: seq<Token>)
    requires IsWord(w) && Delimits(p) && Lexes(p, ts)
    ensures Lexes(w + p, [Word(w)] + ts)
  {
    forall rest: string ensures LexesBefore(w + p, [Word(w)] + ts, rest) {
      var s := (w + p) + rest;
      assert s == w + (p + rest) && s[0] == w[0];
      RunOfWord(w, p + rest);
      assert w[0] in w;
      assert s[..|w|] == w && s[|w|..] == p + rest;
      assert LexesBefore(p, ts, rest);
      if Lex(rest).Some? {
        assert ([Word(w)] + ts) + Lex(rest).value == [Word(w)] + (ts + Lex(rest).value);
      }
    }
  }

  lemma {:induction false} RunOfText(t: string, rest: string)
    requires forall c | c in t :: TextChar(c)
    ensures TextRun(t + ("\"" + rest)) == |t|
  {
    if t == "" {
      assert t + ("\"" + rest) == "\"" + rest;
    } else {
      RunOfText(t[1..], rest);
      assert (t + ("\"" + rest))[1..] == t[1..] + ("\"" + rest);
    }
  }

  lemma LexQuoted(t: string, p: string, ts: seq<Token>)
    requires (forall c | c in t :: TextChar(c)) && Delimits(p) && Lexes(p, ts)
    ensures Lexes("\"" + t + "\"" + p, [Quoted(t)] + ts)
  {
    forall rest: string ensures LexesBefore("\"" + t + "\"" + p, [Quoted(t)] + ts, rest) {
      LexQuotedBefore(t, p + rest);
      assert ("\"" + t + "\"" + p) + rest == "\"" + t + "\"" + (p + rest);
      assert LexesBefore(p, ts, rest);
      if Lex(rest).Some? {
        assert ([Quoted(t)] + ts) + Lex(rest).value == [Quoted(t)] + (ts + Lex(rest).value);
      }
    }
  }

  lemma LexQuotedBefore(t: string, rest: string)
    requires (forall c | c in t :: TextChar(c)) && (rest == "" || rest[0] != '"')
    ensures Lex("\"" + t + "\"" + rest) == Glue([Quoted(t)], Lex(rest))
  {
    QuotedParts(t, rest);
    RunOfText(t, rest);
    LexClosed("\"" + t + "\"" + rest, t, rest);
  }

  lemma QuotedParts(t: string, rest: string)
    ensures var s := "\"" + t + "\"" + rest;
            && |s| == |t| + 2 + |rest| && s[0] == s[|t| + 1] == '"'
            && s[1..] == t + ("\"" + rest) && s[1..|t| + 1] == t && s[|t| + 2..] == rest
  {
  }

  lemma LexClosed(s: string, t: string, rest: string)
    requires |s| == |t| + 2 + |rest| && s[0] == s[|t| + 1] == '"' && TextRun(s[1..]) == |t|
    requires s[1..|t| + 1] == t && s[|t| + 2..] == rest && (rest == "" || rest[0] != '"')
    ensures Lex(s) == Glue([Quoted(t)], Lex(rest))
  {
  }

  // ---------- From tokens to values ----------

  function ReadWord(w: string): Option<Value> {
    if w == "true" then Some(Flag(true))
    else if w == "false" then Some(Flag(false))
    else if w != "" && w[0] == '$' then (if IsName(w[1..]) then Some(Text(w)) else None)
    else if w != "" && (w[0] == '-' || '0' <= w[0] <= '9') then
      var n := Encodings.Decoded(w, 10);
      if n.Some? && w == Encodings.Encoded(n.value, 10, true) then Some(Number(n.value)) else None
    else None
  }

  function ReadValue(ts: seq<Token>): (r: Option<(Value, seq<Token>)>)
    ensures r.Some? ==> |r.value.1| < |ts|
    decreases |ts|, 1
  {
    if ts == [] then None
    else
      match ts[0]
      case Spread => None
      case Quoted(s) => Some((Text(s), ts[1..]))
      case Word(w) => (match ReadWord(w) case Some(v) => Some((v, ts[1..])) case None => None)
      case Mark(c) =>
        if c == '[' then
          var r := ReadItems(ts[1..]);
          if r.None? || !StartsWith(r.value.1, ']') then None else Some((List(r.value.0), r.value.1[1..]))
        else if c == '{' then
          var r := ReadEntries(ts[1..]);
          if r.None? || !StartsWith(r.value.1, '}') then None else Some((Dict(r.value.0), r.value.1[1..]))
        else None
  }

  predicate StartsWith(ts: seq<Token>, c: char) {
    ts != [] && ts[0] == Mark(c)
  }

  /** The values up to a closing bracket. */
  function ReadItems(ts: seq<Token>): (r: Option<(seq<Value>, seq<Token>)>)
    ensures r.Some? ==> |r.value.1| <= |ts|
    decreases |ts|, 2
  {
    if ts == [] || ts[0] == Mark(']') then Some(([], ts))
    else
      var first := ReadValue(ts);
      if first.None? then None
      else
        var more := ReadItems(first.value.1);
        if more.None? then None else Some(([first.value.0] + more.value.0, more.value.1))
  }

  /** Names with their values, as far as they go. */
  function ReadEntries(ts: seq<Token>): (r: Option<(seq<Entry>, seq<Token>)>)
    ensures r.Some? ==> |r.value.1| <= |ts|
    decreases |ts|, 2
  {
    if ts == [] || !ts[0].Word? then Some(([], ts))
    else if |ts| < 2 || ts[1] != Mark(':') || !IsName(ts[0].w) then None
    else
      var first := ReadValue(ts[2..]);
      if first.None? then None
      else
        var more := ReadEntries(first.value.1);
        if more.None? then None else Some(([Entry(ts[0].w, first.value.0)] + more.value.0, more.value.1))
  }

  // ---------- From tokens to selections ----------

  /** A field or fragment of a selection set, as the specification has it; `key` is a name or `...on` a type. */
  datatype Selection = Selection(alias: Option<string>, key: string, arguments: seq<Entry>, block: Block)

  datatype Block = NoBlock | Block(selections: seq<Selection>)

  const ON := "...on "

  /** Arguments between parentheses, at least one, or none without parentheses. */
  function ReadArguments(ts: seq<Token>): (r: Option<(seq<Entry>, seq<Token>)>)
    ensures r.Some? ==> |r.value.1| <= |ts|
  {
    if !StartsWith(ts, '(') then Some(([], ts))
    else
      var r := ReadEntries(ts[1..]);
      if r.None? || !StartsWith(r.value.1, ')') || r.value.0 == [] then None else Some((r.value.0, r.value.1[1..]))
  }

  function ReadAlias(ts: seq<Token>): (r: (Option<string>, seq<Token>))
    ensures |r.1| <= |ts|
  {
    if |ts| >= 2 && ts[0].Word? && IsName(ts[0].w) && ts[1] == Mark(':') then (Some(ts[0].w), ts[2..]) else (None, ts)
  }

  /** A selection set between braces, with at least one selection, or none without braces. */
  function ReadBlock(ts: seq<Token>): (r: Option<(Block, seq<Token>)>)
    ensures r.Some? ==> |r.value.1| <= |ts|
    decreases |ts|, 1
  {
    if !StartsWith(ts, '{') then Some((NoBlock, ts))
    else
      var r := ReadSelections(ts[1..]);
      if r.None? || !StartsWith(r.value.1, '}') || r.value.0 == [] then None else Some((Block(r.value.0), r.value.1[1..]))
  }

  /** `alias: name(arguments) { ... }` */
  function ReadField(ts: seq<Token>): (r: Option<(Selection, seq<Token>)>)
    ensures r.Some? ==> |r.value.1| < |ts|
    decreases |ts|, 2
  {
    var (alias, named) := ReadAlias(ts);
    if named == [] || !named[0].Word? || !IsName(named[0].w) then None
    else
      var arguments := ReadArguments(named[1..]);
      if arguments.None? then None
      else
        var block := ReadBlock(arguments.value.1);
        if block.None? then None
        else Some((Selection(alias, named[0].w, arguments.value.0, block.value.0), block.value.1))
  }

  /** `...on type { ... }` */
  function ReadFragment(ts: seq<Token>): (r: Option<(Selection, seq<Token>)>)
    ensures r.Some? ==> |r.value.1| < |ts|
    decreases |ts|, 2
  {
    if |ts| < 3 || ts[0] != Spread || ts[1] != Word("on") || !ts[2].Word? || !IsName(ts[2].w) then None
    else
      var block := ReadBlock(ts[3..]);
      if block.None? || block.value.0.NoBlock? then None
      else Some((Selection(None, ON + ts[2].w, [], block.value.0), block.value.1))
  }

  /** Selections, as far as they go. */
  function ReadSelections(ts: seq<Token>): (r: Option<(seq<Selection>, seq<Token>)>)
    ensures r.Some? ==> |r.value.1| <= |ts|
    decreases |ts|, 3
  {
    if ts == [] || !(ts[0].Word? || ts[0].Spread?) then Some(([], ts))
    else
      var first := if ts[0].Spread? then ReadFragment(ts) else ReadField(ts);
      if first.None? then None
      else
        var more := ReadSelections(first.value.1);
        if more.None? then None else Some(([first.value.0] + more.value.0, more.value.1))
  }

  /** The content of a selection set. */
  function ReadQuery(text: string): Option<seq<Selection>> {
    match Lex(text)
    case None => None
    case Some(ts) =>
      match ReadSelections(ts)
      case Some((selections, rest)) => if rest == [] && selections != [] then Some(selections) else None
      case None => None
  }

  function ReadInput(text: string): Option<seq<Entry>> {
    match Lex(text)
    case None => None
    case Some(ts) =>
      match ReadEntries(ts)
      case Some((entries, rest)) => if rest == [] then Some(entries) else None
      case None => None
  }

  function ReadOneValue(text: string): Option<Value> {
    match Lex(text)
    case None => None
    case Some(ts) =>
      match ReadValue(ts)
      case Some((v, rest)) => if rest == [] then Some(v) else None
      case None => None
  }
}
