/** Minimising the payload of an update: attribute values that are the same as in the original data are removed,
    together with the variables that carried them. */
module StripUnmodified {
  import opened Common

  type ItemName = string
  type Key = string

  const SOURCE: Key := "source"
  const OWNER: Key := "owner"
  const ID: Key := "id"

  /** Text, any other scalar, or the nested object under which the original data holds a source or an owner. */
  datatype Val = Text(s: string) | Scalar(n: int) | Object(id: Option<string>)

  type Record = map<Key, Val>
  type Payload = map<ItemName, Record>
  type Variables = map<string, string>

  datatype Original = Plain(v: Val) | Fields(fields: Record)

  /** What is sent: the payload and the values of the variables it refers to. */
  datatype Update = Update(data: Payload, variables: Variables)

  /** The variable that a text would name if its first character were dropped. */
  function Tail(v: Val): Option<string> {
    if v.Text? && |v.s| > 1 then Some(v.s[1..]) else None
  }

  predicate Uses(u: Update, i: ItemName, k: Key, name: string) {
    i in u.data && k in u.data[i] && Tail(u.data[i][k]) == Some(name)
  }

  function Resolve(v: Val, variables: Variables): Val {
    if Tail(v).Some? && v.s[0] == '$' && Tail(v).value in variables then Text(variables[Tail(v).value]) else v
  }

  /** The variable names are fresh: a text whose tail is a variable name is the one reference to it, and no text of the
      original data looks like one. */
  ghost predicate FreshNames(original: map<ItemName, Original>, u: Update) {
    && (forall i, k, name :: Uses(u, i, k, name) && name in u.variables ==> u.data[i][k].s[0] == '$')
    && (forall i, k, j, l, name :: Uses(u, i, k, name) && Uses(u, j, l, name) && name in u.variables ==> i == j && k == l)
    && (forall i, k, name :: name in u.variables ==> Before(original, i, k) != Some(Text("$" + name)))
  }

  /** No entry refers to a variable that is not sent. */
  ghost predicate NothingDangles(u: Update) {
    forall i, k, name :: Uses(u, i, k, name) && u.data[i][k].s[0] == '$' ==> name in u.variables
  }

  /** A source or owner object with an id counts as that id. */
  function Normal(k: Key, v: Val): Val {
    if (k == SOURCE || k == OWNER) && v.Object? && v.id.Some? && v.id.value != "" then Text(v.id.value) else v
  }

  function Before(original: map<ItemName, Original>, i: ItemName, k: Key): Option<Val> {
    if i in original && original[i].Fields? && k in original[i].fields then Some(Normal(k, original[i].fields[k])) else None
  }

  /** The value of one property of the node after the update has been applied to the original data. */
  function After(original: map<ItemName, Original>, u: Update, i: ItemName, k: Key): Option<Val> {
    if i in u.data && k in u.data[i] then Some(Resolve(u.data[i][k], u.variables)) else Before(original, i, k)
  }

  /** Both updates make the same node of the original data. */
  ghost predicate SameEffect(original: map<ItemName, Original>, u: Update, w: Update) {
    forall i, k :: After(original, u, i, k) == After(original, w, i, k)
  }

  // ---------- Stripping ----------

  function WithoutEntry(data: Payload, i: ItemName, k: Key): Payload
    requires i in data
  {
    data[i := data[i] - {k}]
  }

  /** One key of one item. */
  function StripKey(original: Record, u: Update, i: ItemName, k: Key): Update
    requires k in original && i in u.data
  {
    var was := Normal(k, original[k]);
    if k !in u.data[i] || (k == ID && |u.data[i]| > 1) then u
    else
      var v := u.data[i][k];
      if was == v then u.(data := WithoutEntry(u.data, i, k))
      else if Tail(v).Some? && Tail(v).value in u.variables && was == Text(u.variables[Tail(v).value]) then
        Update(WithoutEntry(u.data, i, k), u.variables - {Tail(v).value})
      else u
  }

  /** No variable is left behind by an entry that is gone. */
  ghost predicate NothingLeftBehind(u: Update, w: Update) {
    forall i, k, name :: Uses(u, i, k, name) && name in w.variables ==> Uses(w, i, k, name)
  }

  /** The update lost entries and the variables they used, kept the others as they are, and the effect is the same. */
  ghost predicate Reduced(original: map<ItemName, Original>, u: Update, w: Update) {
    && FreshNames(original, w) && NothingDangles(w) && SameEffect(original, u, w)
    && w.data.Keys <= u.data.Keys && (forall i :: i in w.data ==> w.data[i].Keys <= u.data[i].Keys)
    && (forall i, k :: i in w.data && k in w.data[i] ==> w.data[i][k] == u.data[i][k])
    && NothingLeftBehind(u, w)
    && w.variables.Keys <= u.variables.Keys && (forall name :: name in w.variables ==> w.variables[name] == u.variables[name])
  }

  lemma SmallerKeepsFreshness(original: map<ItemName, Original>, u: Update, w: Update)
    requires FreshNames(original, u) && w.variables.Keys <= u.variables.Keys
    requires forall i, k, name :: Uses(w, i, k, name) ==> Uses(u, i, k, name) && w.data[i][k] == u.data[i][k]
    ensures FreshNames(original, w)
  {
  }

  lemma StripKeyKeepsReferences(original: map<ItemName, Original>, u: Update, i: ItemName, k: Key)
    requires FreshNames(original, u) && NothingDangles(u) && i in original && original[i].Fields? && k in original[i].fields && i in u.data
    ensures FreshNames(original, StripKey(original[i].fields, u, i, k)) && NothingDangles(StripKey(original[i].fields, u, i, k))
  {
    var w := StripKey(original[i].fields, u, i, k);
    forall j, l, name | Uses(w, j, l, name) ensures Uses(u, j, l, name) && w.data[j][l] == u.data[j][l] {}
    SmallerKeepsFreshness(original, u, w);
    forall j, l, name | Uses(w, j, l, name) && w.data[j][l].s[0] == '$' ensures name in w.variables {
      assert Uses(u, j, l, name) && name in u.variables;
      if name !in w.variables {
        assert Uses(u, i, k, name);
      }
    }
  }

  /** The effect on one property. */
  lemma StripKeyKeepsEffectAt(original: map<ItemName, Original>, u: Update, i: ItemName, k: Key, j: ItemName, l: Key)
    requires FreshNames(original, u) && i in original && original[i].Fields? && k in original[i].fields && i in u.data
    ensures After(original, u, j, l) == After(original, StripKey(original[i].fields, u, i, k), j, l)
  {
    var w := StripKey(original[i].fields, u, i, k);
    if j in w.data && l in w.data[j] {
      var tail := Tail(u.data[j][l]);
      if tail.Some? && tail.value in u.variables && tail.value !in w.variables {
        assert Uses(u, i, k, tail.value) && Uses(u, j, l, tail.value);
      }
    } else if j == i && l == k && k in u.data[i] {
      var tail := Tail(u.data[i][k]);
      if tail.Some? && tail.value in u.variables {
        assert Uses(u, i, k, tail.value);
        assert u.data[i][k].s == "$" + tail.value;
        assert Before(original, i, k) != Some(Text("$" + tail.value));
      }
    }
  }

  lemma StripKeyReduces(original: map<ItemName, Original>, u: Update, w: Update, i: ItemName, k: Key)
    requires Reduced(original, u, w) && i in original && original[i].Fields? && k in original[i].fields && i in w.data
    ensures Reduced(original, u, StripKey(original[i].fields, w, i, k))
  {
    var x := StripKey(original[i].fields, w, i, k);
    StripKeyKeepsReferences(original, w, i, k);
    forall j, l ensures After(original, u, j, l) == After(original, x, j, l) {
      StripKeyKeepsEffectAt(original, w, i, k, j, l);
      assert After(original, u, j, l) == After(original, w, j, l);
    }
    forall j, l, name | Uses(u, j, l, name) && name in x.variables ensures Uses(x, j, l, name) {
      StripKeyTakesVariable(original, w, i, k, j, l, name);
    }
  }

  /** An entry only goes without its variable if it has none. */
  lemma StripKeyTakesVariable(original: map<ItemName, Original>, w: Update, i: ItemName, k: Key, j: ItemName, l: Key, name: string)
    requires FreshNames(original, w) && i in original && original[i].Fields? && k in original[i].fields && i in w.data
    requires Uses(w, j, l, name) && name in StripKey(original[i].fields, w, i, k).variables
    ensures Uses(StripKey(original[i].fields, w, i, k), j, l, name)
  {
    var v := w.data[j][l];
    assert v.s == [v.s[0]] + v.s[1..];
    if j == i && l == k {
      assert Before(original, i, k) == Some(Normal(k, original[i].fields[k]));
    }
  }

  /** Dropping a whole item is harmless when each of its entries is sent as it was before. */
  lemma DropItemReduces(original: map<ItemName, Original>, u: Update, w: Update, i: ItemName)
    requires Reduced(original, u, w) && i in w.data
    requires forall k :: k in w.data[i] ==> Before(original, i, k) == Some(w.data[i][k])
    ensures Reduced(original, u, w.(data := w.data - {i}))
  {
    var x := w.(data := w.data - {i});
    forall j, l, name | Uses(x, j, l, name) ensures Uses(w, j, l, name) && x.data[j][l] == w.data[j][l] {}
    forall j, l, name | Uses(u, j, l, name) && name in x.variables ensures Uses(x, j, l, name) {
      assert Uses(w, j, l, name);
      var v := w.data[j][l];
      assert v.s == [v.s[0]] + v.s[1..];
    }
    SmallerKeepsFreshness(original, w, x);
    forall j, l ensures After(original, u, j, l) == After(original, x, j, l) {
      assert After(original, u, j, l) == After(original, w, j, l);
      if j == i && l in w.data[i] {
        var v := w.data[i][l];
        assert v.Text? && v.s != "" ==> v.s == [v.s[0]] + v.s[1..];
        assert Tail(v).Some? ==> Uses(w, i, l, Tail(v).value);
      }
    }
  }

  /** The entry, once resolved, is what the original data says. */
  predicate Unmodified(original: map<ItemName, Original>, u: Update, i: ItemName, k: Key) {
    i in u.data && k in u.data[i] && Before(original, i, k) == Some(Resolve(u.data[i][k], u.variables))
  }

  /** Nothing becomes unmodified that was not so before. */
  ghost predicate NoneAppear(original: map<ItemName, Original>, u: Update, w: Update) {
    forall j, l :: Unmodified(original, w, j, l) ==> Unmodified(original, u, j, l)
  }

  lemma StrippedStaysStripped(original: map<ItemName, Original>, u: Update, i: ItemName, k: Key)
    requires FreshNames(original, u) && i in original && original[i].Fields? && k in original[i].fields && i in u.data
    ensures var w := StripKey(original[i].fields, u, i, k);
            (k != ID ==> !Unmodified(original, w, i, k)) && NoneAppear(original, u, w)
  {
    var w := StripKey(original[i].fields, u, i, k);
    forall j, l | Unmodified(original, w, j, l) ensures Unmodified(original, u, j, l) {
      var tail := Tail(u.data[j][l]);
      if tail.Some? && tail.value in u.variables && tail.value !in w.variables {
        assert Uses(u, i, k, tail.value) && Uses(u, j, l, tail.value);
      }
    }
  }

  /** The keys of the item that have been visited hold nothing unmodified; the rest of the update only got smaller. */
  ghost predicate ItemProgress(original: map<ItemName, Original>, full: Update, start: Update, w: Update, i: ItemName, left: set<Key>) {
    && i in original && original[i].Fields? && i in w.data && Reduced(original, full, w) && NoneAppear(original, start, w)
    && forall k :: k in original[i].fields && k !in left && k != ID ==> !Unmodified(original, w, i, k)
  }

  lemma ItemStep(original: map<ItemName, Original>, full: Update, start: Update, w: Update, i: ItemName, left: set<Key>, k: Key)
    requires ItemProgress(original, full, start, w, i, left) && k in left && k in original[i].fields
    ensures ItemProgress(original, full, start, StripKey(original[i].fields, w, i, k), i, left - {k})
  {
    StripKeyReduces(original, full, w, i, k);
    StrippedStaysStripped(original, w, i, k);
  }

  lemma ItemDone(original: map<ItemName, Original>, full: Update, start: Update, w: Update, i: ItemName)
    requires ItemProgress(original, full, start, w, i, {})
    ensures ItemEnd(original, full, start, w, i)
    ensures w.data[i] == map[] ==> ItemEnd(original, full, start, w.(data := w.data - {i}), i)
  {
    if w.data[i] == map[] {
      DropItemReduces(original, full, w, i);
    }
  }

  ghost predicate ItemEnd(original: map<ItemName, Original>, full: Update, start: Update, w: Update, i: ItemName) {
    Reduced(original, full, w) && NoneAppear(original, start, w) && forall k :: k != ID ==> !Unmodified(original, w, i, k)
  }

  /** Nothing of the other items is touched, and the item keeps its id as long as it has anything to send. */
  ghost predicate ItemKept(u: Update, w: Update, i: ItemName) {
    && (forall j :: j != i ==> (j in w.data <==> j in u.data) && (j in w.data ==> w.data[j] == u.data[j]))
    && (i in w.data && i in u.data && ID in u.data[i] && w.data[i] != map[] ==> ID in w.data[i])
  }

  /** A nested object stands for its id in a source and in an owner, and nowhere else. */
  lemma OwnerCountsAsItsId(original: Record, u: Update, i: ItemName, k: Key, id: string)
    requires k in original && original[k] == Object(Some(id)) && id != ""
    requires i in u.data && k in u.data[i] && u.data[i][k] == Text(id) && k != ID
    ensures k !in StripKey(original, u, i, k).data[i] <==> k == "source" || k == "owner"
  {
  }

  /** An id that is not modified goes exactly when the item has nothing else to send. */
  lemma IdGoesLast(original: Record, u: Update, i: ItemName)
    requires ID in original && !original[ID].Object? && i in u.data && ID in u.data[i] && u.data[i][ID] == original[ID]
    ensures ID !in StripKey(original, u, i, ID).data[i] <==> u.data[i].Keys == {ID}
  {
    if |u.data[i]| == 1 {
      OnlyKey(u.data[i], ID);
    }
  }

  lemma OnlyKey(r: Record, k: Key)
    requires k in r && |r| == 1
    ensures r.Keys == {k}
  {
    assert |r.Keys - {k}| == 0;
  }

  /** `_strip_unmodified_dict` */
  method StripItem(original: map<ItemName, Original>, u: Update, ghost full: Update, i: ItemName) returns (w: Update)
    requires Reduced(original, full, u) && i in original && original[i].Fields? && i in u.data
    ensures ItemEnd(original, full, u, w, i) && ItemKept(u, w, i)
    ensures i in w.data ==> w.data[i] != map[]
  {
    w := u;
    var keys := original[i].fields.Keys;
    while keys != {}
      invariant keys <= original[i].fields.Keys
      invariant ItemProgress(original, full, u, w, i, keys) && ItemKept(u, w, i)
      decreases keys
    {
      var k :| k in keys;
      KeepsItem(original[i].fields, u, w, i, k);
      ItemStep(original, full, u, w, i, keys, k);
      w := StripKey(original[i].fields, w, i, k);
      keys := keys - {k};
    }
    ItemDone(original, full, u, w, i);
    if w.data[i] == map[] {
      w := w.(data := w.data - {i});
    }
  }

  lemma KeepsItem(original: Record, u: Update, w: Update, i: ItemName, k: Key)
    requires k in original && i in w.data && ItemKept(u, w, i)
    ensures ItemKept(u, StripKey(original, w, i, k), i)
  {
    if k == ID && ID in w.data[i] && |w.data[i]| <= 1 {
      OnlyKey(w.data[i], ID);
      assert w.data[i] - {ID} == map[];
    }
  }

  /** Payload entries are texts and scalars; nested objects only occur in the original data. */
  ghost predicate Sendable(u: Update) {
    forall i, k :: i in u.data && k in u.data[i] ==> !u.data[i][k].Object?
  }

  lemma SameItemGoes(original: map<ItemName, Original>, full: Update, w: Update, i: ItemName)
    requires Reduced(original, full, w) && Sendable(full) && i in original && original[i].Fields? && i in w.data && w.data[i] == original[i].fields
    ensures ItemEnd(original, full, w, w.(data := w.data - {i}), i)
  {
    DropItemReduces(original, full, w, i);
  }

  /** `_strip_unmodified` for attributes: the effect of the update on the original data is the same, no reference dangles,
      and no attribute entry that would leave the original value in place is sent, except an id. */
  method Strip(original: map<ItemName, Original>, u: Update) returns (w: Update)
    requires FreshNames(original, u) && NothingDangles(u) && Sendable(u)
    ensures Reduced(original, u, w)
    ensures forall i, k :: i in original && k != ID ==> !Unmodified(original, w, i, k)
    ensures forall i :: i in w.data && ID in u.data[i] && w.data[i] != map[] ==> ID in w.data[i]
    ensures forall i :: i in u.data && i !in original ==> i in w.data && w.data[i] == u.data[i]
  {
    w := u;
    var items := original.Keys;
    while items != {}
      invariant items <= original.Keys
      invariant Reduced(original, u, w)
      invariant forall i :: i in w.data && ID in u.data[i] && w.data[i] != map[] ==> ID in w.data[i]
      invariant forall i :: i in u.data && (i !in original || i in items) ==> i in w.data && w.data[i] == u.data[i]
      invariant forall i, k :: i in original && i !in items && k != ID ==> !Unmodified(original, w, i, k)
      decreases items
    {
      var i :| i in items;
      items := items - {i};
      ghost var before := w;
      if i in w.data && original[i].Fields? {
        if w.data[i] == original[i].fields {
          SameItemGoes(original, u, w, i);
          w := w.(data := w.data - {i});
        } else {
          w := StripItem(original, w, u, i);
        }
        assert ItemEnd(original, u, before, w, i);
      }
    }
  }
}
