/** Overlaying profile values on the attributes of a node that still have their default. */
module Profiles {
  import opened Common
  import opened StableSort

  const NULL_VALUE := "NULL"

  /** The stored priority: absent or null, a number, or text that is not a number. */
  datatype Priority = Missing | Number(value: int) | Unreadable

  datatype Profile = Profile(uuid: string, priority: Priority, attrs: map<string, string>)

  /** `get_profile_priority`: a missing priority sorts behind every number, with an empty uuid. */
  datatype SortKey = SortKey(priority: Option<int>, uuid: string)

  function KeyOf(p: Profile): SortKey {
    if p.priority.Number? then SortKey(Some(p.priority.value), p.uuid) else SortKey(None, "")
  }

  predicate Less(a: SortKey, b: SortKey) {
    if a.priority == b.priority then Before(a.uuid, b.uuid)
    else a.priority.Some? && (b.priority.None? || a.priority.value < b.priority.value)
  }

  lemma LessIsTotal(a: SortKey, b: SortKey)
    ensures a != b ==> Less(a, b) || Less(b, a)
    ensures !(Less(a, b) && Less(b, a)) && !Less(a, a)
  {
    BeforeIsTotal(a.uuid, b.uuid);
    BeforeIsTotal(a.uuid, a.uuid);
  }

  lemma LessChains(a: SortKey, b: SortKey, c: SortKey)
    requires !Less(b, a) && !Less(c, b)
    ensures !Less(c, a)
  {
    LessIsTotal(a, b);
    LessIsTotal(b, c);
    if a.priority == b.priority == c.priority && a.uuid != b.uuid && b.uuid != c.uuid {
      BeforeChains(a.uuid, b.uuid, c.uuid);
      BeforeIsTotal(a.uuid, c.uuid);
    }
    LessIsTotal(a, c);
  }

  const BY_KEY: (Profile, Profile) -> bool := (p: Profile, q: Profile) => Less(KeyOf(p), KeyOf(q))

  lemma KeysAreOrdered()
    ensures WeakOrder(BY_KEY)
  {
    forall p: Profile, q: Profile ensures !(BY_KEY(p, q) && BY_KEY(q, p)) {
      LessIsTotal(KeyOf(p), KeyOf(q));
    }
    forall p: Profile, q: Profile, r: Profile | !BY_KEY(q, p) && !BY_KEY(r, q) ensures !BY_KEY(r, p) {
      LessChains(KeyOf(p), KeyOf(q), KeyOf(r));
    }
  }

  // ---------- Choosing a value ----------

  predicate Offers(p: Profile, name: string) {
    name in p.attrs && p.attrs[name] != NULL_VALUE
  }

  /** The value and uuid that the scan over the sorted profiles ends with. */
  function Pick(ps: seq<Profile>, name: string): Option<(string, string)> {
    if ps == [] then None
    else if Offers(ps[0], name) then Some((ps[0].attrs[name], ps[0].uuid))
    else Pick(ps[1..], name)
  }

  function Choice(ps: seq<Profile>, name: string): Option<(string, string)> {
    Pick(Sort(ps, BY_KEY), name)
  }

  lemma {:induction false} PickIsFirst(ps: seq<Profile>, name: string) returns (i: nat)
    ensures i <= |ps| && forall j :: 0 <= j < i ==> !Offers(ps[j], name)
    ensures if i == |ps| then Pick(ps, name) == None
            else Offers(ps[i], name) && Pick(ps, name) == Some((ps[i].attrs[name], ps[i].uuid))
  {
    if ps == [] || Offers(ps[0], name) {
      i := 0;
    } else {
      var k := PickIsFirst(ps[1..], name);
      i := k + 1;
      assert forall j :: 0 < j < i ==> ps[j] == ps[1..][j - 1];
    }
  }

  /** `p` offers a value for the attribute, and no profile that does has a smaller key. */
  ghost predicate Wins(ps: seq<Profile>, name: string, p: Profile) {
    p in ps && Offers(p, name) && forall q :: q in ps && Offers(q, name) ==> !Less(KeyOf(q), KeyOf(p))
  }

  /** The choice is the value of a least profile that offers one, and there is none exactly when no profile does. */
  lemma LeastProfileWins(ps: seq<Profile>, name: string)
    ensures Choice(ps, name).None? <==> forall p :: p in ps && name in p.attrs ==> p.attrs[name] == "NULL"
    ensures Choice(ps, name).Some? ==> Choice(ps, name).value.0 != "NULL"
    ensures Choice(ps, name).Some? ==> exists p :: Wins(ps, name, p) && Choice(ps, name) == Some((p.attrs[name], p.uuid))
  {
    var sorted := Sort(ps, BY_KEY);
    KeysAreOrdered();
    SortSorts(ps, BY_KEY);
    SameElements(sorted, ps);
    var i := PickIsFirst(sorted, name);
    if i < |sorted| {
      assert sorted[i] in ps;
      forall q | q in ps && Offers(q, name) ensures !Less(KeyOf(q), KeyOf(sorted[i])) {
        assert q in sorted;
        var j :| 0 <= j < |sorted| && sorted[j] == q;
        LessIsTotal(KeyOf(q), KeyOf(sorted[i]));
      }
      assert Wins(ps, name, sorted[i]);
    }
  }

  /** The profile listed at `i` comes before the one listed at `j`: the lower number wins, then the smaller uuid, then the place in the
      list; profiles without a number come last, in the order of the list. */
  predicate ComesFirst(ps: seq<Profile>, i: nat, j: nat)
    requires i < |ps| && j < |ps|
  {
    match (ps[i].priority, ps[j].priority)
    case (Number(m), Number(n)) => m < n || (m == n && (Before(ps[i].uuid, ps[j].uuid) || (ps[i].uuid == ps[j].uuid && i < j)))
    case (Number(_), _) => true
    case (_, Number(_)) => false
    case _ => i < j
  }

  /** The profile listed at `i` offers a value, and every other one that does comes after it. */
  ghost predicate ComesFirstOfAll(ps: seq<Profile>, name: string, i: nat) {
    i < |ps| && Offers(ps[i], name) && forall j :: 0 <= j < |ps| && j != i && Offers(ps[j], name) ==> ComesFirst(ps, i, j)
  }

  lemma {:induction false} PickOfOneMore(ps: seq<Profile>, p: Profile, name: string)
    ensures Pick(ps + [p], name) ==
            if Pick(ps, name).Some? then Pick(ps, name) else if Offers(p, name) then Some((p.attrs[name], p.uuid)) else None
  {
    if ps != [] {
      PickOfOneMore(ps[1..], p, name);
      assert (ps + [p])[1..] == ps[1..] + [p];
    } else {
      assert [p][1..] == [];
    }
  }

  /** The first profile that offers a value is also the first among those that are equal to it. */
  lemma {:induction false} PickAlike(ps: seq<Profile>, name: string, i: nat, p: Profile)
    requires i < |ps| && Offers(ps[i], name) && Equal(BY_KEY, ps[i], p)
    requires forall j :: 0 <= j < i && Equal(BY_KEY, ps[j], p) ==> !Offers(ps[j], name)
    ensures Pick(Alike(ps, p, BY_KEY), name) == Some((ps[i].attrs[name], ps[i].uuid))
  {
    var init, last := ps[..|ps| - 1], ps[|ps| - 1];
    if i < |init| {
      PickAlike(init, name, i, p);
      PickOfOneMore(Alike(init, p, BY_KEY), last, name);
    } else {
      NothingAlike(init, name, p);
      PickOfOneMore(Alike(init, p, BY_KEY), last, name);
    }
    assert Alike(init, p, BY_KEY) + [] == Alike(init, p, BY_KEY);
  }

  lemma {:induction false} NothingAlike(ps: seq<Profile>, name: string, p: Profile)
    requires forall j :: 0 <= j < |ps| && Equal(BY_KEY, ps[j], p) ==> !Offers(ps[j], name)
    ensures Pick(Alike(ps, p, BY_KEY), name) == None
  {
    if ps != [] {
      NothingAlike(ps[..|ps| - 1], name, p);
      PickOfOneMore(Alike(ps[..|ps| - 1], p, BY_KEY), ps[|ps| - 1], name);
      assert Alike(ps[..|ps| - 1], p, BY_KEY) + [] == Alike(ps[..|ps| - 1], p, BY_KEY);
    }
  }

  lemma {:induction false} FirstAlike(ps: seq<Profile>, name: string, p: Profile) returns (i: nat)
    requires p in ps && Offers(p, name)
    ensures i < |ps| && Offers(ps[i], name) && Equal(BY_KEY, ps[i], p)
    ensures forall j :: 0 <= j < i && Equal(BY_KEY, ps[j], p) ==> !Offers(ps[j], name)
  {
    LessIsTotal(KeyOf(p), KeyOf(p));
    if Offers(ps[0], name) && Equal(BY_KEY, ps[0], p) {
      i := 0;
    } else {
      var k := FirstAlike(ps[1..], name, p);
      i := k + 1;
      assert forall j :: 0 < j < i ==> ps[j] == ps[1..][j - 1];
    }
  }

  /** The choice is the value of the profile that comes before all others that offer one. */
  lemma FirstProfileWins(ps: seq<Profile>, name: string)
    ensures Choice(ps, name).Some? ==>
              exists i: nat :: ComesFirstOfAll(ps, name, i) && Choice(ps, name) == Some((ps[i].attrs[name], ps[i].uuid))
  {
    if Choice(ps, name).Some? {
      var sorted := Sort(ps, BY_KEY);
      KeysAreOrdered();
      SortSorts(ps, BY_KEY);
      SameElements(sorted, ps);
      var n := PickIsFirst(sorted, name);
      var p := sorted[n];
      LessIsTotal(KeyOf(p), KeyOf(p));
      PickAlike(sorted, name, n, p);
      SortIsStable(ps, p, BY_KEY);
      var i := FirstAlike(ps, name, p);
      PickAlike(ps, name, i, p);
      forall j | 0 <= j < |ps| && j != i && Offers(ps[j], name) ensures ComesFirst(ps, i, j) {
        LeastComesFirst(ps, name, sorted, n, i, j);
      }
      assert ComesFirstOfAll(ps, name, i);
    }
  }

  lemma LeastComesFirst(ps: seq<Profile>, name: string, sorted: seq<Profile>, n: nat, i: nat, j: nat)
    requires Sorted(sorted, BY_KEY) && n < |sorted| && (forall k :: 0 <= k < n ==> !Offers(sorted[k], name))
    requires i < |ps| && j < |ps| && j != i && Offers(ps[j], name) && ps[j] in sorted && Equal(BY_KEY, ps[i], sorted[n])
    requires forall k :: 0 <= k < i && Equal(BY_KEY, ps[k], sorted[n]) ==> !Offers(ps[k], name)
    ensures ComesFirst(ps, i, j)
  {
    var m :| 0 <= m < |sorted| && sorted[m] == ps[j];
    LessIsTotal(KeyOf(ps[i]), KeyOf(sorted[n]));
    LessIsTotal(KeyOf(ps[j]), KeyOf(sorted[n]));
    BeforeIsTotal(ps[i].uuid, ps[j].uuid);
    assert !Less(KeyOf(ps[j]), KeyOf(sorted[n]));
  }

  /** With distinct sort keys the choice does not depend on the order in which the profiles are listed. */
  lemma ChoiceIgnoresOrder(ps: seq<Profile>, qs: seq<Profile>, name: string)
    requires multiset(ps) == multiset(qs)
    requires forall p, q :: p in ps && q in ps && KeyOf(p) == KeyOf(q) ==> p == q
    ensures Choice(ps, name) == Choice(qs, name)
  {
    LeastProfileWins(ps, name);
    LeastProfileWins(qs, name);
    SameElements(ps, qs);
    if Choice(ps, name).Some? && Choice(qs, name).Some? {
      var p :| Wins(ps, name, p) && Choice(ps, name) == Some((p.attrs[name], p.uuid));
      var q :| Wins(qs, name, q) && Choice(qs, name) == Some((q.attrs[name], q.uuid));
      LessIsTotal(KeyOf(p), KeyOf(q));
    }
  }

  // ---------- Applying the profiles ----------

  datatype Attribute = Attribute(value: string, isDefault: bool, isFromProfile: bool, source: Option<string>)

  function Overlay(a: Attribute, choice: Option<(string, string)>): Attribute {
    if a.isDefault && choice.Some? then Attribute(choice.value.0, false, true, Some(choice.value.1)) else a
  }

  /** The record of one attribute as it was read; the overlay changes it in place. */
  class AttributeFromDB {
    var value: string
    var isDefault: bool
    var isFromProfile: bool
    var source: Option<string>

    constructor (a: Attribute)
      ensures Content() == a
    {
      value, isDefault, isFromProfile, source := a.value, a.isDefault, a.isFromProfile, a.source;
    }

    function Content(): Attribute
      reads this
    {
      Attribute(value, isDefault, isFromProfile, source)
    }
  }

  datatype ProfileError = PriorityIsNotANumber

  class ProfileAttributeIndex {
    const profiles: map<string, Profile>
    const profileIds: map<string, seq<string>>

    constructor (profiles: map<string, Profile>, profileIds: map<string, seq<string>>)
      ensures this.profiles == profiles && this.profileIds == profileIds
    {
      this.profiles, this.profileIds := profiles, profileIds;
    }

    function Known(ids: seq<string>): seq<Profile> {
      if ids == [] then []
      else Known(ids[..|ids| - 1]) + if ids[|ids| - 1] in profiles then [profiles[ids[|ids| - 1]]] else []
    }

    function ProfilesOf(nodeId: string): seq<Profile> {
      if nodeId in profileIds then Known(profileIds[nodeId]) else []
    }

    /** The profiles of a node are those listed for it that were read, in the order of the list. */
    lemma {:induction false} KnownInOrder(ids: seq<string>, more: seq<string>)
      ensures Known(ids + more) == Known(ids) + Known(more)
      ensures forall id :: Known([id]) == if id in profiles then [profiles[id]] else []
      decreases |more|
    {
      forall id ensures Known([id]) == if id in profiles then [profiles[id]] else [] {
        assert [id][..0] == [];
      }
      if more == [] {
        assert ids + more == ids;
      } else {
        KnownInOrder(ids, more[..|more| - 1]);
        assert (ids + more)[..|ids + more| - 1] == ids + more[..|more| - 1];
      }
    }

    method ApplyProfiles(nodeId: string, data: map<string, AttributeFromDB>) returns (error: Option<ProfileError>)
      requires forall m, n :: m in data && n in data && data[m] == data[n] ==> m == n
      modifies data.Values
      ensures error.Some? <==> exists p :: p in ProfilesOf(nodeId) && p.priority.Unreadable?
      ensures forall name :: name in data ==>
                if error.Some? || !old(data[name].isDefault) || Choice(ProfilesOf(nodeId), name).None? then
                  data[name].Content() == old(data[name].Content())
                else
                  data[name].Content() == Attribute(Choice(ProfilesOf(nodeId), name).value.0, false, true, Some(Choice(ProfilesOf(nodeId), name).value.1))
    {
      var ps := ProfilesOf(nodeId);
      if exists i | 0 <= i < |ps| :: ps[i].priority.Unreadable? {
        return Some(PriorityIsNotANumber);
      }
      var sorted := Sort(ps, BY_KEY);
      var names := data.Keys;
      while names != {}
        invariant names <= data.Keys
        invariant forall name :: name in data && name !in names ==>
                    data[name].Content() == Overlay(old(data[name].Content()), Choice(ps, name))
        invariant forall name :: name in names ==> data[name].Content() == old(data[name].Content())
        decreases names
      {
        var name :| name in names;
        names := names - {name};
        var attr := data[name];
        if attr.isDefault {
          var choice := Scan(sorted, name);
          if choice.Some? {
            attr.value := choice.value.0;
            attr.isFromProfile := true;
            attr.isDefault := false;
            attr.source := Some(choice.value.1);
          }
        }
      }
      return None;
    }
  }

  /** The inner loop: the first profile in sorted order that holds a value other than the null marker. */
  method Scan(sorted: seq<Profile>, name: string) returns (choice: Option<(string, string)>)
    ensures choice == Pick(sorted, name)
  {
    choice := None;
    var index := 0;
    while choice.None? && index <= |sorted| - 1
      invariant 0 <= index <= |sorted|
      invariant if choice.None? then Pick(sorted, name) == Pick(sorted[index..], name) else choice == Pick(sorted, name)
      decreases |sorted| - index, if choice.None? then 1 else 0
    {
      if name in sorted[index].attrs && sorted[index].attrs[name] != NULL_VALUE {
        choice := Some((sorted[index].attrs[name], sorted[index].uuid));
      } else {
        assert sorted[index..][1..] == sorted[index + 1..];
        index := index + 1;
      }
    }
    assert index == |sorted| ==> sorted[index..] == [];
  }

  /** Attributes that were set by hand keep everything; applying the same profiles again changes nothing. */
  lemma OverlayIsIdempotent(a: Attribute, ps: seq<Profile>, name: string)
    ensures Overlay(Overlay(a, Choice(ps, name)), Choice(ps, name)) == Overlay(a, Choice(ps, name))
    ensures Overlay(a, Choice(ps, name)) != a ==> a.isDefault && exists p :: p in ps && Offers(p, name)
  {
    LeastProfileWins(ps, name);
  }
}
