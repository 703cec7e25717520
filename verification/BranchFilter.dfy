/**
 The textual query filters of a branch. The text is a list of tokens; a reader in which AND binds
 tighter than OR gives the text its meaning, and the meaning is compared with visibility.
 */
module BranchFilter {
  import opened Common
  import opened TemporalGraph

  datatype Token =
    | Open
    | Close
    | And
    | Or
    | BranchIn(rel: string, idx: nat)   // rel.branch IN $branch<idx>
    | SinceUpTo(rel: string, idx: nat)  // rel.from <= $time<idx>
    | UntilNull(rel: string)            // rel.to IS NULL
    | UntilFrom(rel: string, idx: nat)  // rel.to >= $time<idx>

  type Text = seq<Token>

  // ---------- The generators ----------

  function OpenClause(rel: string, idx: nat): Text {
    [Open, BranchIn(rel, idx), And, SinceUpTo(rel, idx), And, UntilNull(rel), Close]
  }

  function ClosedClause(rel: string, idx: nat): Text {
    [Open, BranchIn(rel, idx), And, SinceUpTo(rel, idx), And, UntilFrom(rel, idx), Close]
  }

  function Clauses(rel: string, windows: nat): seq<Text> {
    if windows == 0 then [] else Clauses(rel, windows - 1) + [OpenClause(rel, windows - 1), ClosedClause(rel, windows - 1)]
  }

  function Join(sep: Token, pieces: seq<Text>): Text {
    if pieces == [] then [] else if |pieces| == 1 then pieces[0] else pieces[0] + [sep] + Join(sep, pieces[1..])
  }

  function Bracketed(rel: string, windows: nat): Text {
    [Open] + Join(Or, Clauses(rel, windows)) + [Close]
  }

  /** The filters of `get_query_filter_relationships`, one or two per label depending on the mode. */
  function Filters(rels: seq<string>, windows: nat, includeOutsideParentheses: bool): seq<Text> {
    if rels == [] then []
    else
      Filters(rels[..|rels| - 1], windows, includeOutsideParentheses)
      + (if includeOutsideParentheses then [] else [Join(Or, Clauses(rels[|rels| - 1], windows))])
      + [Bracketed(rels[|rels| - 1], windows)]
  }

  method GetQueryFilterRelationships(branch: BranchInfo, rels: seq<string>, at: Time, includeOutsideParentheses: bool)
    returns (filters: seq<Text>, params: seq<Window>)
    ensures params == branch.TimesToQueryGlobal(at)
    ensures filters == Filters(rels, |params|, includeOutsideParentheses)
  {
    filters := [];
    params := branch.TimesToQueryGlobal(at);
    for r := 0 to |rels|
      invariant filters == Filters(rels[..r], |params|, includeOutsideParentheses)
    {
      var perRel := [];
      for idx := 0 to |params|
        invariant perRel == Clauses(rels[r], idx)
      {
        perRel := perRel + [OpenClause(rels[r], idx)];
        perRel := perRel + [ClosedClause(rels[r], idx)];
      }
      assert rels[..r + 1][..r] == rels[..r];
      if !includeOutsideParentheses {
        filters := filters + [Join(Or, perRel)];
      }
      filters := filters + [[Open] + Join(Or, perRel) + [Close]];
    }
    assert rels[..|rels|] == rels;
  }

  /** The filter of `get_query_filter_path`, over the relationship named `r`. */
  method GetQueryFilterPath(branch: BranchInfo, at: Time, isIsolated: bool, branchAgnostic: bool)
    returns (filter: Text, params: seq<Window>)
    ensures branchAgnostic ==>
              filter == [SinceUpTo("r", 1), And, Open, UntilNull("r"), Or, UntilFrom("r", 1), Close]
              && |params| == 2 && params[1].time == at
    ensures !branchAgnostic ==>
              params == branch.TimesToQueryGlobal(at, isIsolated) && filter == Bracketed("r", |params|)
  {
    if branchAgnostic {
      filter := [SinceUpTo("r", 1), And, Open, UntilNull("r"), Or, UntilFrom("r", 1), Close];
      params := [Window({}, at), Window({}, at)];
      return;
    }
    params := branch.TimesToQueryGlobal(at, isIsolated);
    var filters := [];
    for idx := 0 to |params|
      invariant filters == Clauses("r", idx)
    {
      filters := filters + [OpenClause("r", idx)];
      filters := filters + [ClosedClause("r", idx)];
    }
    filter := [Open] + Join(Or, filters) + [Close];
  }

  // ---------- The reader ----------

  datatype Env = Env(rels: map<string, Edge>, params: seq<Window>)

  datatype Reading = Unreadable | Read(value: bool, rest: Text)

  predicate Known(t: Token, env: Env) {
    match t
    case BranchIn(rel, idx) => rel in env.rels && idx < |env.params|
    case SinceUpTo(rel, idx) => rel in env.rels && idx < |env.params|
    case UntilNull(rel) => rel in env.rels
    case UntilFrom(rel, idx) => rel in env.rels && idx < |env.params|
    case _ => false
  }

  /** A comparison with a missing `to` is not true, as in Cypher. */
  predicate Holds(t: Token, env: Env)
    requires Known(t, env)
  {
    match t
    case BranchIn(rel, idx) => env.rels[rel].branch in env.params[idx].branches
    case SinceUpTo(rel, idx) => env.rels[rel].since <= env.params[idx].time
    case UntilNull(rel) => env.rels[rel].until.None?
    case UntilFrom(rel, idx) => env.rels[rel].until.Some? && env.rels[rel].until.value >= env.params[idx].time
  }

  function ReadFactor(t: Text, env: Env): (r: Reading)
    ensures r.Read? ==> |r.rest| < |t|
    decreases |t|, 0
  {
    if t == [] then Unreadable
    else if t[0] == Open then
      match ReadOr(t[1..], env)
      case Unreadable => Unreadable
      case Read(v, rest) => if rest != [] && rest[0] == Close then Read(v, rest[1..]) else Unreadable
    else if Known(t[0], env) then Read(Holds(t[0], env), t[1..])
    else Unreadable
  }

  function ReadAnd(t: Text, env: Env): (r: Reading)
    ensures r.Read? ==> |r.rest| < |t|
    decreases |t|, 1
  {
    match ReadFactor(t, env)
    case Unreadable => Unreadable
    case Read(v, rest) =>
      if rest != [] && rest[0] == And then
        match ReadAnd(rest[1..], env)
        case Unreadable => Unreadable
        case Read(w, rest') => Read(v && w, rest')
      else Read(v, rest)
  }

  function ReadOr(t: Text, env: Env): (r: Reading)
    ensures r.Read? ==> |r.rest| < |t|
    decreases |t|, 2
  {
    match ReadAnd(t, env)
    case Unreadable => Unreadable
    case Read(v, rest) =>
      if rest != [] && rest[0] == Or then
        match ReadOr(rest[1..], env)
        case Unreadable => Unreadable
        case Read(w, rest') => Read(v || w, rest')
      else Read(v, rest)
  }

  // ---------- Meaning of the text ----------

  /** `piece` reads as one factor with value `v`, whatever follows it. */
  ghost predicate Factor(piece: Text, v: bool, env: Env) {
    forall rest :: FactorBefore(piece, v, rest, env)
  }

  predicate FactorBefore(piece: Text, v: bool, rest: Text, env: Env) {
    ReadFactor(piece + rest, env) == Read(v, rest)
  }

  ghost predicate Factors(pieces: seq<Text>, vs: seq<bool>, env: Env) {
    |pieces| == |vs| && forall i :: 0 <= i < |pieces| ==> Factor(pieces[i], vs[i], env)
  }

  predicate Follows(rest: Text, tokens: set<Token>) {
    rest == [] || rest[0] !in tokens
  }

  predicate All(vs: seq<bool>) {
    vs == [] || (vs[0] && All(vs[1..]))
  }

  predicate Any(vs: seq<bool>) {
    vs != [] && (vs[0] || Any(vs[1..]))
  }

  lemma FactorAt(piece: Text, v: bool, rest: Text, env: Env)
    requires Factor(piece, v, env)
    ensures ReadFactor(piece + rest, env) == Read(v, rest)
  {
    assert FactorBefore(piece, v, rest, env);
  }

  lemma AndStep(t: Text, v: bool, tail: Text, env: Env)
    requires ReadFactor(t, env) == Read(v, [And] + tail)
    ensures ReadAnd(tail, env).Read? ==>
              ReadAnd(t, env) == Read(v && ReadAnd(tail, env).value, ReadAnd(tail, env).rest)
  {
    assert ([And] + tail)[1..] == tail;
  }

  lemma OrStep(t: Text, v: bool, tail: Text, env: Env)
    requires ReadFactor(t, env) == Read(v, [Or] + tail)
    ensures ReadOr(tail, env).Read? ==>
              ReadOr(t, env) == Read(v || ReadOr(tail, env).value, ReadOr(tail, env).rest)
  {
    assert ([Or] + tail)[1..] == tail;
    assert ReadAnd(t, env) == Read(v, [Or] + tail);
  }

  lemma {:induction false} ReadConjunction(pieces: seq<Text>, vs: seq<bool>, rest: Text, env: Env)
    requires pieces != [] && Factors(pieces, vs, env) && Follows(rest, {And})
    ensures ReadAnd(Join(And, pieces) + rest, env) == Read(All(vs), rest)
  {
    if |pieces| == 1 {
      FactorAt(pieces[0], vs[0], rest, env);
      assert vs[1..] == [];
    } else {
      var tail := Join(And, pieces[1..]) + rest;
      assert Join(And, pieces) + rest == pieces[0] + ([And] + tail);
      FactorAt(pieces[0], vs[0], [And] + tail, env);
      AndStep(Join(And, pieces) + rest, vs[0], tail, env);
      ReadConjunction(pieces[1..], vs[1..], rest, env);
    }
  }

  lemma {:induction false} ReadDisjunction(pieces: seq<Text>, vs: seq<bool>, rest: Text, env: Env)
    requires pieces != [] && Factors(pieces, vs, env) && Follows(rest, {And, Or})
    ensures ReadOr(Join(Or, pieces) + rest, env) == Read(Any(vs), rest)
  {
    if |pieces| == 1 {
      FactorAt(pieces[0], vs[0], rest, env);
      assert vs[1..] == [];
    } else {
      var tail := Join(Or, pieces[1..]) + rest;
      assert Join(Or, pieces) + rest == pieces[0] + ([Or] + tail);
      FactorAt(pieces[0], vs[0], [Or] + tail, env);
      OrStep(Join(Or, pieces) + rest, vs[0], tail, env);
      ReadDisjunction(pieces[1..], vs[1..], rest, env);
    }
  }

  lemma BracketsMakeAFactor(inner: Text, v: bool, env: Env)
    requires forall rest :: ReadOr(inner + ([Close] + rest), env) == Read(v, [Close] + rest)
    ensures Factor([Open] + inner + [Close], v, env)
  {
    forall rest
      ensures FactorBefore([Open] + inner + [Close], v, rest, env)
    {
      var t := [Open] + inner + [Close] + rest;
      assert t[1..] == inner + ([Close] + rest);
      assert ([Close] + rest)[1..] == rest;
    }
  }

  lemma ClauseIsFactor(rel: string, idx: nat, env: Env)
    requires rel in env.rels && idx < |env.params|
    ensures var e, w := env.rels[rel], env.params[idx];
            Factor(OpenClause(rel, idx), Visible(e, w) && e.until.None?, env)
            && Factor(ClosedClause(rel, idx), Visible(e, w) && e.until.Some?, env)
  {
    var e, w := env.rels[rel], env.params[idx];
    TripleIsFactor(BranchIn(rel, idx), SinceUpTo(rel, idx), UntilNull(rel), env);
    TripleIsFactor(BranchIn(rel, idx), SinceUpTo(rel, idx), UntilFrom(rel, idx), env);
  }

  lemma TripleIsFactor(a: Token, b: Token, c: Token, env: Env)
    requires Known(a, env) && Known(b, env) && Known(c, env)
    ensures Factor([Open, a, And, b, And, c, Close], Holds(a, env) && Holds(b, env) && Holds(c, env), env)
  {
    var v := Holds(a, env) && Holds(b, env) && Holds(c, env);
    forall rest
      ensures FactorBefore([Open, a, And, b, And, c, Close], v, rest, env)
    {
      var t := [Open, a, And, b, And, c, Close] + rest;
      TripleReads(a, b, c, rest, env);
      TripleText(a, b, c, rest);
      assert ([Close] + rest)[1..] == rest;
    }
  }

  lemma TripleText(a: Token, b: Token, c: Token, rest: Text)
    ensures ([Open, a, And, b, And, c, Close] + rest)[1..] == [a, And] + ([b, And] + ([c, Close] + rest))
  {
  }

  lemma TripleReads(a: Token, b: Token, c: Token, rest: Text, env: Env)
    requires Known(a, env) && Known(b, env) && Known(c, env)
    ensures ReadAnd([a, And] + ([b, And] + ([c, Close] + rest)), env)
            == Read(Holds(a, env) && Holds(b, env) && Holds(c, env), [Close] + rest)
  {
    var last := [c, Close] + rest;
    assert last[1..] == [Close] + rest;
    assert ReadAnd(last, env) == Read(Holds(c, env), [Close] + rest);
    LeadingAtom(b, last, env);
    LeadingAtom(a, [b, And] + last, env);
  }

  lemma LeadingAtom(a: Token, tail: Text, env: Env)
    requires Known(a, env) && tail != [] && ReadAnd(tail, env).Read?
    ensures ReadAnd([a, And] + tail, env) == Read(Holds(a, env) && ReadAnd(tail, env).value, ReadAnd(tail, env).rest)
  {
    var t := [a, And] + tail;
    assert t[1..] == [And] + tail && ([And] + tail)[1..] == tail;
  }

  /** The values of a label's clauses. */
  function ClauseValues(e: Edge, ws: seq<Window>): (vs: seq<bool>) {
    if ws == [] then []
    else ClauseValues(e, ws[..|ws| - 1])
         + [Visible(e, ws[|ws| - 1]) && e.until.None?, Visible(e, ws[|ws| - 1]) && e.until.Some?]
  }

  lemma {:induction false} AnySplits(a: seq<bool>, b: seq<bool>)
    ensures Any(a + b) <==> Any(a) || Any(b)
  {
    if a == [] {
      assert a + b == b;
    } else {
      assert (a + b)[1..] == a[1..] + b;
      AnySplits(a[1..], b);
    }
  }

  lemma {:induction false} ClauseValuesMeanSelected(e: Edge, ws: seq<Window>)
    ensures Any(ClauseValues(e, ws)) <==> Selected(e, ws)
  {
    if ws != [] {
      var n := |ws| - 1;
      var last := [Visible(e, ws[n]) && e.until.None?, Visible(e, ws[n]) && e.until.Some?];
      ClauseValuesMeanSelected(e, ws[..n]);
      AnySplits(ClauseValues(e, ws[..n]), last);
      assert Any(last) <==> last[0] || last[1] by {
        assert last[1..] == [last[1]];
        assert last[1..][1..] == [];
        assert Any(last[1..]) == last[1];
      }
      assert Selected(e, ws) <==> Selected(e, ws[..n]) || Visible(e, ws[n]);
    }
  }

  lemma {:induction false} ClausesAreFactors(rel: string, n: nat, env: Env)
    requires rel in env.rels && n <= |env.params|
    ensures Factors(Clauses(rel, n), ClauseValues(env.rels[rel], env.params[..n]), env)
  {
    if n > 0 {
      ClausesAreFactors(rel, n - 1, env);
      ClauseIsFactor(rel, n - 1, env);
      assert env.params[..n][..n - 1] == env.params[..n - 1];
    }
  }

  /** A bracketed filter is true of an edge exactly when a window selects the edge. */
  lemma BracketedMeansSelected(rel: string, env: Env)
    requires rel in env.rels && env.params != []
    ensures Factor(Bracketed(rel, |env.params|), Selected(env.rels[rel], env.params), env)
  {
    var n, v := |env.params|, Selected(env.rels[rel], env.params);
    ClausesAreFactors(rel, n, env);
    assert env.params[..n] == env.params;
    forall rest
      ensures ReadOr(Join(Or, Clauses(rel, n)) + ([Close] + rest), env) == Read(v, [Close] + rest)
    {
      ReadDisjunction(Clauses(rel, n), ClauseValues(env.rels[rel], env.params), [Close] + rest, env);
      ClauseValuesMeanSelected(env.rels[rel], env.params);
    }
    BracketsMakeAFactor(Join(Or, Clauses(rel, n)), v, env);
  }

  function Selections(rels: seq<string>, edges: map<string, Edge>, ws: seq<Window>): (vs: seq<bool>)
    requires forall i :: 0 <= i < |rels| ==> rels[i] in edges
    ensures |vs| == |rels|
  {
    if rels == [] then [] else [Selected(edges[rels[0]], ws)] + Selections(rels[1..], edges, ws)
  }

  lemma {:induction false} AllSelected(rels: seq<string>, edges: map<string, Edge>, ws: seq<Window>)
    requires forall i :: 0 <= i < |rels| ==> rels[i] in edges
    ensures All(Selections(rels, edges, ws)) <==> forall i :: 0 <= i < |rels| ==> Selected(edges[rels[i]], ws)
  {
    if rels != [] {
      AllSelected(rels[1..], edges, ws);
      assert forall i :: 0 < i < |rels| ==> rels[i] == rels[1..][i - 1];
    }
  }

  lemma {:induction false} FiltersAreFactors(rels: seq<string>, env: Env)
    requires env.params != [] && forall i :: 0 <= i < |rels| ==> rels[i] in env.rels
    ensures |Filters(rels, |env.params|, true)| == |rels|
    ensures forall i :: 0 <= i < |rels| ==>
              Filters(rels, |env.params|, true)[i] == Bracketed(rels[i], |env.params|)
    ensures Factors(Filters(rels, |env.params|, true), Selections(rels, env.rels, env.params), env)
  {
    if rels != [] {
      FiltersAreFactors(rels[..|rels| - 1], env);
    }
    forall i | 0 <= i < |rels|
      ensures Factor(Bracketed(rels[i], |env.params|), Selections(rels, env.rels, env.params)[i], env)
    {
      BracketedMeansSelected(rels[i], env);
      SelectionAt(rels, env.rels, env.params, i);
    }
  }

  lemma {:induction false} SelectionAt(rels: seq<string>, edges: map<string, Edge>, ws: seq<Window>, i: nat)
    requires i < |rels| && forall j :: 0 <= j < |rels| ==> rels[j] in edges
    ensures Selections(rels, edges, ws)[i] == Selected(edges[rels[i]], ws)
  {
    if i > 0 {
      SelectionAt(rels[1..], edges, ws, i - 1);
    }
  }

  /** Joined with AND, the parenthesised filters are true exactly when every labelled edge is visible on the branch at that time. */
  lemma FilterPreservesMeaning(branch: BranchInfo, rels: seq<string>, at: Time, edges: map<string, Edge>)
    requires rels != [] && forall i :: 0 <= i < |rels| ==> rels[i] in edges
    ensures var ws := branch.TimesToQueryGlobal(at);
            ReadOr(Join(And, Filters(rels, |ws|, true)), Env(edges, ws))
            == Read(forall i :: 0 <= i < |rels| ==> Selected(edges[rels[i]], ws), [])
  {
    var ws := branch.TimesToQueryGlobal(at);
    FiltersRead(rels, Env(edges, ws));
    AllSelected(rels, edges, ws);
  }

  lemma FiltersRead(rels: seq<string>, env: Env)
    requires env.params != [] && rels != [] && forall i :: 0 <= i < |rels| ==> rels[i] in env.rels
    ensures ReadOr(Join(And, Filters(rels, |env.params|, true)), env) == Read(All(Selections(rels, env.rels, env.params)), [])
  {
    var filters := Filters(rels, |env.params|, true);
    FiltersAreFactors(rels, env);
    ReadConjunction(filters, Selections(rels, env.rels, env.params), [], env);
    assert Join(And, filters) + [] == Join(And, filters);
  }

  /** The path filter is true of an edge exactly when the branch, or any branch in agnostic mode, shows it at that time. */
  lemma PathFilterPreservesMeaning(branch: BranchInfo, at: Time, isIsolated: bool, e: Edge)
    ensures var ws := branch.TimesToQueryGlobal(at, isIsolated);
            ReadOr(Bracketed("r", |ws|), Env(map["r" := e], ws)) == Read(Selected(e, ws), [])
    ensures var ws := branch.TimesToQueryGlobal(at, isIsolated);
            && (branch.isDefault ==>
                  ReadOr(Bracketed("r", |ws|), Env(map["r" := e], ws)) == Read(e.branch in {GLOBAL_BRANCH, branch.name} && Alive(e, at), []))
            && (!branch.isDefault && branch.origin != branch.name ==>
                  ReadOr(Bracketed("r", |ws|), Env(map["r" := e], ws))
                  == Read(|| (e.branch in {GLOBAL_BRANCH, branch.name} && Alive(e, at))
                          || (e.branch in {GLOBAL_BRANCH, branch.origin}
                              && Alive(e, if branch.isIsolated && isIsolated && branch.branchedFrom < at then branch.branchedFrom else at)), []))
    ensures var text := [SinceUpTo("r", 1), And, Open, UntilNull("r"), Or, UntilFrom("r", 1), Close];
            ReadOr(text, Env(map["r" := e], [Window({}, at), Window({}, at)])) == Read(Alive(e, at), [])
  {
    var ws := branch.TimesToQueryGlobal(at, isIsolated);
    BracketedReads("r", Env(map["r" := e], ws));
    SeenThroughWindows(branch, at, isIsolated, e);
    AgnosticTextReads(Env(map["r" := e], [Window({}, at), Window({}, at)]));
  }

  lemma BracketedReads(rel: string, env: Env)
    requires rel in env.rels && env.params != []
    ensures ReadOr(Bracketed(rel, |env.params|), env) == Read(Selected(env.rels[rel], env.params), [])
  {
    var t := Bracketed(rel, |env.params|);
    BracketedMeansSelected(rel, env);
    FactorAt(t, Selected(env.rels[rel], env.params), [], env);
    assert t + [] == t;
  }

  /** In the default mode each label has two filters, without and with parentheses; read alone, each is true exactly when the edge is
      visible on the branch at that time. */
  lemma EachFilterAlone(branch: BranchInfo, rels: seq<string>, at: Time, edges: map<string, Edge>, i: nat)
    requires i < |rels| && rels[i] in edges
    ensures var ws := branch.TimesToQueryGlobal(at);
            var filters := Filters(rels, |ws|, false);
            && |filters| == 2 * |rels|
            && ReadOr(filters[2 * i], Env(edges, ws)) == ReadOr(filters[2 * i + 1], Env(edges, ws)) == Read(Selected(edges[rels[i]], ws), [])
  {
    var ws := branch.TimesToQueryGlobal(at);
    var env := Env(edges, ws);
    TwoFiltersEach(rels, |ws|, i);
    BracketedReads(rels[i], env);
    ClausesAreFactors(rels[i], |ws|, env);
    assert ws[..|ws|] == ws;
    ReadDisjunction(Clauses(rels[i], |ws|), ClauseValues(edges[rels[i]], ws), [], env);
    ClauseValuesMeanSelected(edges[rels[i]], ws);
    assert Join(Or, Clauses(rels[i], |ws|)) + [] == Join(Or, Clauses(rels[i], |ws|));
  }

  lemma {:induction false} TwoFiltersEach(rels: seq<string>, windows: nat, i: nat)
    requires i < |rels|
    ensures var filters := Filters(rels, windows, false);
            |filters| == 2 * |rels| && filters[2 * i] == Join(Or, Clauses(rels[i], windows)) && filters[2 * i + 1] == Bracketed(rels[i], windows)
  {
    var init := rels[..|rels| - 1];
    if i < |init| {
      TwoFiltersEach(init, windows, i);
    } else if init != [] {
      TwoFiltersEach(init, windows, 0);
    }
  }

  lemma AgnosticTextReads(env: Env)
    requires "r" in env.rels && |env.params| == 2
    ensures ReadOr([SinceUpTo("r", 1), And, Open, UntilNull("r"), Or, UntilFrom("r", 1), Close], env)
            == Read(Alive(env.rels["r"], env.params[1].time), [])
  {
    var text := [SinceUpTo("r", 1), And, Open, UntilNull("r"), Or, UntilFrom("r", 1), Close];
    var a, b := Holds(UntilNull("r"), env), Holds(UntilFrom("r", 1), env);
    assert text[5..] == [UntilFrom("r", 1), Close] && text[5..][1..] == [Close];
    OrStep(text[3..], a, text[5..], env) by {
      assert text[3..][1..] == [Or] + text[5..];
    }
    assert ReadFactor(text[5..], env) == Read(b, [Close]);
    assert ReadAnd(text[5..], env) == Read(b, [Close]);
    assert text[2..][1..] == text[3..];
    assert ReadFactor(text[2..], env) == Read(a || b, []);
    AndStep(text, Holds(SinceUpTo("r", 1), env), text[2..], env) by {
      assert text[1..] == [And] + text[2..];
    }
  }
}
