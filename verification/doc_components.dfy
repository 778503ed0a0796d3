/** The component part of the documentation: components are grouped by
    the name left after deleting every `List`, `Form`, `Detail` and `Card`
    from them, in a plain object whose entries are created in order of
    first appearance; each entry becomes one table, in the order
    `Object.entries` lists them. */
module DocComponents {
  import opened JsString
  import opened Seqs
  import opened Markdown
  import opened Registry
  import opened Descriptor
  import opened JsObject

  const Tags: seq<string> := ["List", "Form", "Detail", "Card"]

  /** A tag match at the start of `s`, the alternatives tried in order. */
  predicate StartsWithTag(s: string) {
    StartsWith(s, "List") || StartsWith(s, "Form") || StartsWith(s, "Detail") || StartsWith(s, "Card")
  }

  /** `s.replace(/List|Form|Detail|Card/g, '')`: scanning from the left, a
      tag match is deleted and scanning resumes after it; the text left
      behind is not scanned again. */
  function StripTags(s: string): string
    decreases |s|
  {
    if |s| == 0 then ""
    else if StartsWith(s, "List") then StripTags(s[4..])
    else if StartsWith(s, "Form") then StripTags(s[4..])
    else if StartsWith(s, "Detail") then StripTags(s[6..])
    else if StartsWith(s, "Card") then StripTags(s[4..])
    else [s[0]] + StripTags(s[1..])
  }

  /** `componentsByModel` as an ordered list of entries. */
  datatype Group = Group(key: string, members: seq<string>)

  /** `componentsByModel[key].push(c)`, creating the entry at the end when
      the key is new. */
  function AddToGroups(groups: seq<Group>, key: string, c: string): seq<Group>
    decreases |groups|
  {
    if |groups| == 0 then [Group(key, [c])]
    else if groups[0].key == key then [Group(key, groups[0].members + [c])] + groups[1..]
    else [groups[0]] + AddToGroups(groups[1..], key, c)
  }

  /** The grouping loop over the components, in order. */
  function GroupComponents(cs: seq<string>): seq<Group>
    decreases |cs|
  {
    if |cs| == 0 then []
    else
      var c := cs[|cs| - 1];
      AddToGroups(GroupComponents(cs[..|cs| - 1]), StripTags(c), c)
  }

  /** The grouping loop on a plain object: `componentsByModel[key]` for a
      key the object inherits finds a truthy value that is not an array,
      so no entry is created and `push` throws; the script stops there. */
  function CollectGroups(cs: seq<string>): Option<seq<Group>>
    decreases |cs|
  {
    if |cs| == 0 then Some([])
    else
      match CollectGroups(cs[..|cs| - 1])
      case None => None
      case Some(groups) =>
        var c := cs[|cs| - 1];
        if StripTags(c) in ObjectPrototypeKeys then None
        else Some(AddToGroups(groups, StripTags(c), c))
  }

  predicate IsIndexGroup(g: Group) {
    IsArrayIndex(g.key)
  }

  predicate IsNamedGroup(g: Group) {
    !IsArrayIndex(g.key)
  }

  /** Puts an entry before the first one of a larger rank. */
  function InsertByRank(g: Group, sorted: seq<Group>, rank: string -> nat): seq<Group>
    decreases |sorted|
  {
    if |sorted| == 0 then [g]
    else if rank(g.key) <= rank(sorted[0].key) then [g] + sorted
    else [sorted[0]] + InsertByRank(g, sorted[1..], rank)
  }

  /** The entries in ascending order of the rank of their keys. */
  function SortByRank(gs: seq<Group>, rank: string -> nat): seq<Group>
    decreases |gs|
  {
    if |gs| == 0 then [] else InsertByRank(gs[0], SortByRank(gs[1..], rank), rank)
  }

  /** `Object.entries(componentsByModel)`: the entries whose key is an
      array index, in ascending numeric order, then the others in the
      order they were created. */
  function Entries(groups: seq<Group>): seq<Group> {
    SortByRank(Filter(groups, IsIndexGroup), IndexValue) + Filter(groups, IsNamedGroup)
  }

  function Keys(groups: seq<Group>): (keys: seq<string>)
    ensures |keys| == |groups|
    ensures forall i :: 0 <= i < |groups| ==> keys[i] == groups[i].key
  {
    seq(|groups|, i requires 0 <= i < |groups| => groups[i].key)
  }

  /** The group key of every component, in component order. */
  function ComponentKeys(cs: seq<string>): (keys: seq<string>)
    ensures |keys| == |cs|
    ensures forall i :: 0 <= i < |cs| ==> keys[i] == StripTags(cs[i])
  {
    seq(|cs|, i requires 0 <= i < |cs| => StripTags(cs[i]))
  }

  /** The components whose key is `key`, in component order. */
  function WithKey(cs: seq<string>, key: string): seq<string>
    decreases |cs|
  {
    if |cs| == 0 then []
    else WithKey(cs[..|cs| - 1], key) + (if StripTags(cs[|cs| - 1]) == key then [cs[|cs| - 1]] else [])
  }

  /** The reference grouping: one entry per distinct key in order of first
      appearance, holding the components with that key. */
  function ReferenceGroups(cs: seq<string>): seq<Group> {
    var keys := Dedup(ComponentKeys(cs));
    seq(|keys|, i requires 0 <= i < |keys| => Group(keys[i], WithKey(cs, keys[i])))
  }

  /** The number of table rows the groups produce. */
  function MemberCount(groups: seq<Group>): nat
    decreases |groups|
  {
    if |groups| == 0 then 0 else |groups[0].members| + MemberCount(groups[1..])
  }

  function ComponentDescription(key: string, c: string): string {
    if EndsWith(c, "List") then "Lista de " + ToLower(key) + "s com filtros e paginação"
    else if EndsWith(c, "Form") then "Formulário para criar/editar " + ToLower(key)
    else if EndsWith(c, "Detail") then "Visualização detalhada de " + ToLower(key)
    else if EndsWith(c, "Card") then "Card resumido de " + ToLower(key) + " para listagens"
    else ""
  }

  function GroupTable(g: Group): seq<string> {
    Table("#### Componentes de " + g.key, Row(["Componente", "Descrição"]), Row(["----------", "---------"]),
      Rows(seq(|g.members|, j requires 0 <= j < |g.members| =>
        [g.members[j], ComponentDescription(g.key, g.members[j])])))
  }

  function ComponentTables(cs: seq<string>): seq<string> {
    var groups := Entries(GroupComponents(cs));
    Flatten(seq(|groups|, i requires 0 <= i < |groups| => GroupTable(groups[i])))
  }

  // ---------------------------------------------------------------------
  // Tag removal

  /** Text in which no tag match starts is left as it is. */
  lemma {:induction false} StripTagsUntagged(s: string)
    requires forall i :: 0 <= i < |s| ==> !StartsWithTag(s[i..])
    ensures StripTags(s) == s
    decreases |s|
  {
    if |s| > 0 {
      assert s[0..] == s;
      forall i | 0 <= i < |s[1..]|
        ensures !StartsWithTag(s[1..][i..])
      {
        assert s[1..][i..] == s[i + 1..];
      }
      StripTagsUntagged(s[1..]);
    }
  }

  /** Model names in which no tag occurs. */
  predicate Untagged(name: string) {
    forall i :: 0 <= i < |name| ==> !StartsWithTag(name[i..])
  }

  /** Every tag is a capital followed by small letters. */
  lemma TagShape(t: nat)
    requires t < |Tags|
    ensures |Tags[t]| >= 4 && IsUpper(Tags[t][0])
    ensures forall k :: 1 <= k < |Tags[t]| ==> IsLower(Tags[t][k])
  {
  }

  /** A tag match that starts before an appended tag ends before it too:
      the appended tag opens with a capital, which no tag has after its
      first letter. */
  lemma NoMatchAcrossTag(a: string, t: nat)
    requires |a| > 0 && !StartsWithTag(a) && t < |Tags|
    ensures !StartsWithTag(a + Tags[t])
  {
    var s := a + Tags[t];
    TagShape(t);
    forall u | 0 <= u < |Tags|
      ensures !StartsWith(s, Tags[u])
    {
      TagShape(u);
      var p := Tags[u];
      assert !StartsWith(a, p);
      if |a| >= |p| {
        assert s[..|p|] == a[..|p|];
      } else if |p| <= |s| {
        assert s[..|p|][|a|] == Tags[t][0];
        assert IsUpper(s[..|p|][|a|]) && IsLower(p[|a|]);
      }
    }
    assert !StartsWith(s, Tags[0]) && !StartsWith(s, Tags[1]);
    assert !StartsWith(s, Tags[2]) && !StartsWith(s, Tags[3]);
  }

  /** The two letters that open a tag. */
  predicate OpensTag(x: char, y: char) {
    (x == 'L' && y == 'i') || (x == 'F' && y == 'o') || (x == 'D' && y == 'e') || (x == 'C' && y == 'a')
  }

  /** A text whose first two letters do not open any tag starts no tag
      match. */
  lemma NoTagByOpening(s: string)
    requires |s| < 2 || !OpensTag(s[0], s[1])
    ensures !StartsWithTag(s)
  {
    if |s| >= 4 {
      assert s[..4][0] == s[0] && s[..4][1] == s[1];
    }
    if |s| >= 6 {
      assert s[..6][0] == s[0] && s[..6][1] == s[1];
    }
  }

  /** A name none of whose adjacent letter pairs opens a tag is untagged. */
  lemma UntaggedByOpenings(name: string)
    requires forall i :: 0 <= i < |name| - 1 ==> !OpensTag(name[i], name[i + 1])
    ensures Untagged(name)
  {
    forall i | 0 <= i < |name|
      ensures !StartsWithTag(name[i..])
    {
      if i < |name| - 1 {
        assert name[i..][0] == name[i] && name[i..][1] == name[i + 1];
      }
      NoTagByOpening(name[i..]);
    }
  }

  /** Deleting the tag appended to an untagged name leaves the name. */
  lemma {:induction false} StripNameAndTag(name: string, t: nat)
    requires Untagged(name) && t < |Tags|
    ensures StripTags(name + Tags[t]) == name
    decreases |name|
  {
    if |name| == 0 {
      assert name + Tags[t] == Tags[t];
    } else {
      assert name[0..] == name;
      NoMatchAcrossTag(name, t);
      assert (name + Tags[t])[1..] == name[1..] + Tags[t];
      forall i | 0 <= i < |name[1..]|
        ensures !StartsWithTag(name[1..][i..])
      {
        assert name[1..][i..] == name[i + 1..];
      }
      StripNameAndTag(name[1..], t);
    }
  }

  /** A model name holding a tag loses it: the components of a model
      `CardHolder` are grouped under `Holder`, together with those of a
      model `Holder`. */
  lemma CardHolderGroupedAsHolder()
    ensures StripTags("CardHolderList") == StripTags("HolderList") == "Holder"
  {
    HolderListStrips();
    var s := "CardHolderList";
    assert s[..4] == "Card" && s[..4][0] == 'C';
    assert !StartsWith(s, "List") && !StartsWith(s, "Form");
    assert !StartsWith(s, "Detail") by {
      assert s[..6][0] == 'C';
    }
    assert s[4..] == "HolderList";
  }

  lemma HolderListStrips()
    ensures StripTags("HolderList") == "Holder"
  {
    UntaggedByOpenings("Holder");
    StripNameAndTag("Holder", 0);
    assert "Holder" + Tags[0] == "HolderList";
  }

  // ---------------------------------------------------------------------
  // Grouping

  predicate DistinctKeys(groups: seq<Group>) {
    forall i, j :: 0 <= i < j < |groups| ==> groups[i].key != groups[j].key
  }

  /** Adding to an existing key extends that entry in place; a new key
      gets a new entry at the end. */
  lemma {:induction false} AddToGroupsSpec(groups: seq<Group>, key: string, c: string)
    requires DistinctKeys(groups)
    ensures (forall i :: 0 <= i < |groups| ==> groups[i].key != key) ==>
      AddToGroups(groups, key, c) == groups + [Group(key, [c])]
    ensures forall j :: 0 <= j < |groups| && groups[j].key == key ==>
      AddToGroups(groups, key, c) == groups[j := Group(key, groups[j].members + [c])]
    decreases |groups|
  {
    if |groups| > 0 {
      AddToGroupsSpec(groups[1..], key, c);
      if groups[0].key != key {
        forall j | 1 <= j < |groups| && groups[j].key == key
          ensures AddToGroups(groups, key, c) == groups[j := Group(key, groups[j].members + [c])]
        {
          assert groups[1..][j - 1].key == key;
          assert [groups[0]] + groups[1..][j - 1 := Group(key, groups[j].members + [c])]
            == groups[j := Group(key, groups[j].members + [c])];
        }
        if forall i :: 0 <= i < |groups| ==> groups[i].key != key {
          assert forall i :: 0 <= i < |groups[1..]| ==> groups[1..][i].key != key;
          assert [groups[0]] + (groups[1..] + [Group(key, [c])]) == groups + [Group(key, [c])];
        }
      } else {
        assert [Group(key, groups[0].members + [c])] + groups[1..] == groups[0 := Group(key, groups[0].members + [c])];
      }
    }
  }

  lemma WithKeySnoc(cs: seq<string>, c: string, key: string)
    ensures WithKey(cs + [c], key) == WithKey(cs, key) + (if StripTags(c) == key then [c] else [])
  {
    assert (cs + [c])[..|cs|] == cs;
  }

  /** No component has a key that none of them produces. */
  lemma {:induction false} WithKeyAbsent(cs: seq<string>, key: string)
    requires forall i :: 0 <= i < |cs| ==> StripTags(cs[i]) != key
    ensures WithKey(cs, key) == []
    decreases |cs|
  {
    if |cs| > 0 {
      WithKeyAbsent(cs[..|cs| - 1], key);
    }
  }

  lemma DedupSnoc<T>(xs: seq<T>, x: T)
    ensures Dedup(xs + [x]) == if x in Dedup(xs) then Dedup(xs) else Dedup(xs) + [x]
  {
    assert (xs + [x])[..|xs|] == xs;
  }

  lemma ComponentKeysSnoc(cs: seq<string>, c: string)
    ensures ComponentKeys(cs + [c]) == ComponentKeys(cs) + [StripTags(c)]
  {
  }

  lemma ReferenceGroupAt(cs: seq<string>, i: nat)
    requires i < |Dedup(ComponentKeys(cs))|
    ensures |ReferenceGroups(cs)| == |Dedup(ComponentKeys(cs))|
    ensures ReferenceGroups(cs)[i]
      == Group(Dedup(ComponentKeys(cs))[i], WithKey(cs, Dedup(ComponentKeys(cs))[i]))
  {
  }

  /** A component whose key is already present joins that entry. */
  lemma ReferenceSnocExisting(cs: seq<string>, c: string, j: nat)
    requires j < |Dedup(ComponentKeys(cs))| && Dedup(ComponentKeys(cs))[j] == StripTags(c)
    ensures ReferenceGroups(cs + [c])
      == ReferenceGroups(cs)[j := Group(StripTags(c), ReferenceGroups(cs)[j].members + [c])]
  {
    ExistingKeyKeepsKeys(cs, c);
    var r := ReferenceGroups(cs + [c]);
    var g := ReferenceGroups(cs);
    ReferenceGroupAt(cs, j);
    ReferenceGroupAt(cs + [c], j);
    var g' := g[j := Group(StripTags(c), g[j].members + [c])];
    forall i | 0 <= i < |Dedup(ComponentKeys(cs))|
      ensures r[i] == g'[i]
    {
      ReferenceSnocExistingAt(cs, c, j, i);
    }
  }

  /** A component whose key is already present adds no key. */
  lemma ExistingKeyKeepsKeys(cs: seq<string>, c: string)
    requires StripTags(c) in Dedup(ComponentKeys(cs))
    ensures Dedup(ComponentKeys(cs + [c])) == Dedup(ComponentKeys(cs))
  {
    ComponentKeysSnoc(cs, c);
    DedupSnoc(ComponentKeys(cs), StripTags(c));
  }

  /** One entry of the grouping after a component whose key is present. */
  lemma ReferenceSnocExistingAt(cs: seq<string>, c: string, j: nat, i: nat)
    requires j < |Dedup(ComponentKeys(cs))| && Dedup(ComponentKeys(cs))[j] == StripTags(c)
    requires Dedup(ComponentKeys(cs + [c])) == Dedup(ComponentKeys(cs))
    requires i < |Dedup(ComponentKeys(cs))|
    ensures ReferenceGroups(cs + [c])[i]
      == ReferenceGroups(cs)[j := Group(StripTags(c), ReferenceGroups(cs)[j].members + [c])][i]
  {
    var keys := Dedup(ComponentKeys(cs));
    ReferenceGroupAt(cs, i);
    ReferenceGroupAt(cs + [c], i);
    ReferenceGroupAt(cs, j);
    WithKeySnoc(cs, c, keys[i]);
    if i != j {
      assert keys[i] != keys[j];
    }
  }

  lemma ReferenceSnocNewAt(cs: seq<string>, c: string, i: nat)
    requires StripTags(c) !in Dedup(ComponentKeys(cs))
    requires Dedup(ComponentKeys(cs + [c])) == Dedup(ComponentKeys(cs)) + [StripTags(c)]
    requires WithKey(cs, StripTags(c)) == []
    requires i <= |Dedup(ComponentKeys(cs))|
    ensures |ReferenceGroups(cs + [c])| == |ReferenceGroups(cs)| + 1
    ensures ReferenceGroups(cs + [c])[i] == (ReferenceGroups(cs) + [Group(StripTags(c), [c])])[i]
  {
    var keys := Dedup(ComponentKeys(cs));
    ReferenceGroupAt(cs + [c], i);
    WithKeySnoc(cs, c, Dedup(ComponentKeys(cs + [c]))[i]);
    if i < |keys| {
      ReferenceGroupAt(cs, i);
      assert Dedup(ComponentKeys(cs + [c]))[i] == keys[i];
      assert keys[i] != StripTags(c);
    }
  }

  /** A component with a new key opens a new entry at the end. */
  lemma ReferenceSnocNew(cs: seq<string>, c: string)
    requires StripTags(c) !in Dedup(ComponentKeys(cs))
    ensures ReferenceGroups(cs + [c]) == ReferenceGroups(cs) + [Group(StripTags(c), [c])]
  {
    var keys := Dedup(ComponentKeys(cs));
    var key := StripTags(c);
    assert Dedup(ComponentKeys(cs + [c])) == keys + [key] by {
      ComponentKeysSnoc(cs, c);
      DedupSnoc(ComponentKeys(cs), key);
    }
    assert WithKey(cs, key) == [] by {
      forall i | 0 <= i < |cs|
        ensures StripTags(cs[i]) != key
      {
        assert ComponentKeys(cs)[i] in keys;
      }
      WithKeyAbsent(cs, key);
    }
    ReferenceSnocNewAt(cs, c, 0);
    forall i | 0 <= i < |keys| + 1
      ensures ReferenceGroups(cs + [c])[i] == (ReferenceGroups(cs) + [Group(key, [c])])[i]
    {
      ReferenceSnocNewAt(cs, c, i);
    }
  }

  lemma ReferenceKeys(cs: seq<string>)
    ensures Keys(ReferenceGroups(cs)) == Dedup(ComponentKeys(cs))
    ensures DistinctKeys(ReferenceGroups(cs))
  {
    assert NoDuplicates(Dedup(ComponentKeys(cs)));
  }

  /** The emitter's grouping loop builds exactly the reference grouping. */
  lemma {:induction false} GroupingMatchesReference(cs: seq<string>)
    ensures GroupComponents(cs) == ReferenceGroups(cs)
    decreases |cs|
  {
    if |cs| > 0 {
      var init := cs[..|cs| - 1];
      var c := cs[|cs| - 1];
      var key := StripTags(c);
      assert cs == init + [c];
      GroupingMatchesReference(init);
      var g := ReferenceGroups(init);
      var keys := Dedup(ComponentKeys(init));
      ReferenceKeys(init);
      AddToGroupsSpec(g, key, c);
      if key in keys {
        var j :| 0 <= j < |keys| && keys[j] == key;
        ReferenceSnocExisting(init, c, j);
      } else {
        ReferenceSnocNew(init, c);
      }
    }
  }

  lemma {:induction false} MemberCountAdd(groups: seq<Group>, key: string, c: string)
    ensures MemberCount(AddToGroups(groups, key, c)) == MemberCount(groups) + 1
    decreases |groups|
  {
    if |groups| > 0 {
      if groups[0].key == key {
        assert AddToGroups(groups, key, c)[1..] == groups[1..];
      } else {
        MemberCountAdd(groups[1..], key, c);
        assert AddToGroups(groups, key, c)[1..] == AddToGroups(groups[1..], key, c);
      }
    }
  }

  /** The groups have distinct keys, cover every component and nothing
      else, hold each component under its own key, and together list as
      many rows as there are components: every component is listed exactly
      once. */
  lemma {:induction false} GroupingPartitions(cs: seq<string>)
    ensures var groups := GroupComponents(cs);
      && DistinctKeys(groups)
      && MemberCount(groups) == |cs|
      && (forall i :: 0 <= i < |cs| ==> StripTags(cs[i]) in Keys(groups))
      && (forall i, j :: 0 <= i < |groups| && 0 <= j < |groups[i].members| ==>
            groups[i].members[j] in cs && StripTags(groups[i].members[j]) == groups[i].key)
    decreases |cs|
  {
    GroupingMatchesReference(cs);
    var keys := Dedup(ComponentKeys(cs));
    var groups := GroupComponents(cs);
    assert NoDuplicates(keys);
    assert Keys(groups) == keys;
    forall i | 0 <= i < |cs|
      ensures StripTags(cs[i]) in Keys(groups)
    {
      assert ComponentKeys(cs)[i] in keys;
    }
    forall i, j | 0 <= i < |groups| && 0 <= j < |groups[i].members|
      ensures groups[i].members[j] in cs && StripTags(groups[i].members[j]) == groups[i].key
    {
      WithKeyMembers(cs, keys[i]);
    }
    if |cs| > 0 {
      GroupingPartitions(cs[..|cs| - 1]);
      MemberCountAdd(GroupComponents(cs[..|cs| - 1]), StripTags(cs[|cs| - 1]), cs[|cs| - 1]);
    }
  }

  lemma {:induction false} WithKeyMembers(cs: seq<string>, key: string)
    ensures forall j :: 0 <= j < |WithKey(cs, key)| ==>
      WithKey(cs, key)[j] in cs && StripTags(WithKey(cs, key)[j]) == key
    decreases |cs|
  {
    if |cs| > 0 {
      var init := cs[..|cs| - 1];
      WithKeyMembers(init, key);
      forall j | 0 <= j < |WithKey(init, key)|
        ensures WithKey(init, key)[j] in cs
      {
        var k :| 0 <= k < |init| && init[k] == WithKey(init, key)[j];
        assert cs[k] == init[k];
      }
    }
  }

  // ---------------------------------------------------------------------
  // Inherited keys

  /** The grouping stops exactly when some component's key is inherited
      by every object; otherwise it builds the groups of the grouping
      loop. */
  lemma {:induction false} CollectGroupsSpec(cs: seq<string>)
    ensures CollectGroups(cs).None? <==>
      exists i :: 0 <= i < |cs| && StripTags(cs[i]) in ObjectPrototypeKeys
    ensures CollectGroups(cs).Some? ==> CollectGroups(cs).value == GroupComponents(cs)
    decreases |cs|
  {
    if |cs| > 0 {
      var init := cs[..|cs| - 1];
      CollectGroupsSpec(init);
      if exists i :: 0 <= i < |init| && StripTags(init[i]) in ObjectPrototypeKeys {
        var i :| 0 <= i < |init| && StripTags(init[i]) in ObjectPrototypeKeys;
        assert cs[i] == init[i];
      } else if StripTags(cs[|cs| - 1]) !in ObjectPrototypeKeys {
        forall i | 0 <= i < |cs|
          ensures StripTags(cs[i]) !in ObjectPrototypeKeys
        {
          if i < |init| {
            assert cs[i] == init[i];
          }
        }
      }
    }
  }

  lemma ListconstructorKey()
    ensures StripTags("ListconstructorList") == "constructor"
  {
    var s := "ListconstructorList";
    assert s[..4] == "List";
    assert s[4..] == "constructor" + Tags[0];
    UntaggedByOpenings("constructor");
    StripNameAndTag("constructor", 0);
  }

  /** The editor accepts the model name `Listconstructor`; its list
      component `ListconstructorList` is grouped under `constructor`, a
      key every object inherits, so the grouping stops. */
  lemma InheritedKeyStopsGrouping()
    ensures StripTags("ListconstructorList") == "constructor"
    ensures CollectGroups(Components("Listconstructor")).None?
  {
    var cs := Components("Listconstructor");
    ListconstructorKey();
    assert cs[0] == "ListconstructorList";
    assert StripTags(cs[0]) in ObjectPrototypeKeys;
    CollectGroupsSpec(cs);
  }

  // ---------------------------------------------------------------------
  // Enumeration order

  predicate RankSorted(gs: seq<Group>, rank: string -> nat) {
    forall i, j :: 0 <= i < j < |gs| ==> rank(gs[i].key) <= rank(gs[j].key)
  }

  /** An entry no larger than every entry of a sorted list can go first. */
  lemma ConsSorted(h: Group, rest: seq<Group>, rank: string -> nat)
    requires RankSorted(rest, rank)
    requires forall j :: 0 <= j < |rest| ==> rank(h.key) <= rank(rest[j].key)
    ensures RankSorted([h] + rest, rank)
  {
    var r := [h] + rest;
    forall i, j | 0 <= i < j < |r|
      ensures rank(r[i].key) <= rank(r[j].key)
    {
      assert r[j] == rest[j - 1];
      if i > 0 {
        assert r[i] == rest[i - 1];
      }
    }
  }

  lemma {:induction false} InsertByRankKeeps(g: Group, sorted: seq<Group>, rank: string -> nat)
    ensures multiset(InsertByRank(g, sorted, rank)) == multiset(sorted) + multiset{g}
    decreases |sorted|
  {
    if |sorted| > 0 {
      assert sorted == [sorted[0]] + sorted[1..];
      InsertByRankKeeps(g, sorted[1..], rank);
    }
  }

  lemma {:induction false} InsertByRankSorted(g: Group, sorted: seq<Group>, rank: string -> nat)
    requires RankSorted(sorted, rank)
    ensures RankSorted(InsertByRank(g, sorted, rank), rank)
    decreases |sorted|
  {
    if |sorted| == 0 {
    } else if rank(g.key) <= rank(sorted[0].key) {
      ConsSorted(g, sorted, rank);
    } else {
      var h := sorted[0];
      var t := sorted[1..];
      InsertByRankSorted(g, t, rank);
      InsertByRankKeeps(g, t, rank);
      var rest := InsertByRank(g, t, rank);
      forall j | 0 <= j < |rest|
        ensures rank(h.key) <= rank(rest[j].key)
      {
        assert rest[j] in multiset(rest);
        if rest[j] != g {
          assert rest[j] in multiset(t);
          var k :| 0 <= k < |t| && t[k] == rest[j];
          assert sorted[k + 1] == t[k];
        }
      }
      ConsSorted(h, rest, rank);
    }
  }

  /** The sort orders the entries by rank. */
  lemma {:induction false} SortByRankSorted(gs: seq<Group>, rank: string -> nat)
    ensures RankSorted(SortByRank(gs, rank), rank)
    decreases |gs|
  {
    if |gs| > 0 {
      SortByRankSorted(gs[1..], rank);
      InsertByRankSorted(gs[0], SortByRank(gs[1..], rank), rank);
    }
  }

  /** The sort keeps every entry. */
  lemma {:induction false} SortByRankKeeps(gs: seq<Group>, rank: string -> nat)
    ensures multiset(SortByRank(gs, rank)) == multiset(gs)
    decreases |gs|
  {
    if |gs| > 0 {
      var t := SortByRank(gs[1..], rank);
      SortByRankKeeps(gs[1..], rank);
      InsertByRankKeeps(gs[0], t, rank);
      assert SortByRank(gs, rank) == InsertByRank(gs[0], t, rank);
      assert multiset(gs) == multiset{gs[0]} + multiset(gs[1..]) by {
        assert gs == [gs[0]] + gs[1..];
      }
    }
  }

  /** With distinct keys, no entry occurs twice. */
  lemma {:induction false} DistinctKeysOnce(groups: seq<Group>, x: Group)
    requires DistinctKeys(groups)
    ensures multiset(groups)[x] <= 1
    decreases |groups|
  {
    if |groups| > 0 {
      var t := groups[1..];
      assert groups == [groups[0]] + t;
      assert DistinctKeys(t) by {
        forall i, j | 0 <= i < j < |t|
          ensures t[i].key != t[j].key
        {
          assert t[i] == groups[i + 1] && t[j] == groups[j + 1];
        }
      }
      DistinctKeysOnce(t, x);
    }
  }

  /** Reordering entries with distinct keys keeps the keys distinct. */
  lemma DistinctKeysPermutation(a: seq<Group>, b: seq<Group>)
    requires DistinctKeys(a) && multiset(a) == multiset(b)
    ensures DistinctKeys(b)
  {
    forall i, j | 0 <= i < j < |b|
      ensures b[i].key != b[j].key
    {
      if b[i] == b[j] {
        assert b == b[..j] + b[j..];
        assert b[i] in multiset(b[..j]) && b[j] in multiset(b[j..]);
        assert multiset(b)[b[i]] == multiset(b[..j])[b[i]] + multiset(b[j..])[b[i]];
        DistinctKeysOnce(a, b[i]);
      } else {
        assert b[i] in multiset(a) && b[j] in multiset(a);
        var p :| 0 <= p < |a| && a[p] == b[i];
        var q :| 0 <= q < |a| && a[q] == b[j];
        assert p != q;
      }
    }
  }

  lemma EntriesKeep(groups: seq<Group>)
    ensures multiset(Entries(groups)) == multiset(groups)
  {
    SortByRankKeeps(Filter(groups, IsIndexGroup), IndexValue);
    FilterPartition(groups, IsIndexGroup, IsNamedGroup);
  }

  /** The sorted part holds the index entries, in ascending order. */
  lemma SortedIndexEntries(groups: seq<Group>)
    ensures var sorted := SortByRank(Filter(groups, IsIndexGroup), IndexValue);
      && RankSorted(sorted, IndexValue)
      && forall k :: 0 <= k < |sorted| ==> IsIndexGroup(sorted[k])
  {
    var indexed := Filter(groups, IsIndexGroup);
    var sorted := SortByRank(indexed, IndexValue);
    SortByRankSorted(indexed, IndexValue);
    SortByRankKeeps(indexed, IndexValue);
    forall k | 0 <= k < |sorted|
      ensures IsIndexGroup(sorted[k])
    {
      assert sorted[k] in multiset(indexed);
    }
  }

  lemma EntriesIndexFirst(groups: seq<Group>)
    requires DistinctKeys(Entries(groups))
    ensures forall i, j :: 0 <= i < j < |Entries(groups)| && IsIndexGroup(Entries(groups)[j]) ==>
      && IsIndexGroup(Entries(groups)[i])
      && IndexValue(Entries(groups)[i].key) < IndexValue(Entries(groups)[j].key)
  {
    var sorted := SortByRank(Filter(groups, IsIndexGroup), IndexValue);
    var named := Filter(groups, IsNamedGroup);
    var e := Entries(groups);
    SortedIndexEntries(groups);
    forall i, j | 0 <= i < j < |e| && IsIndexGroup(e[j])
      ensures IsIndexGroup(e[i]) && IndexValue(e[i].key) < IndexValue(e[j].key)
    {
      if j < |sorted| {
        assert e[i] == sorted[i] && e[j] == sorted[j];
        ArrayIndexInjective(e[i].key, e[j].key);
      } else {
        assert false;
      }
    }
  }

  lemma EntriesNamedInOrder(groups: seq<Group>)
    ensures Filter(Entries(groups), IsNamedGroup) == Filter(groups, IsNamedGroup)
  {
    var sorted := SortByRank(Filter(groups, IsIndexGroup), IndexValue);
    var named := Filter(groups, IsNamedGroup);
    SortedIndexEntries(groups);
    FilterAppend(sorted, named, IsNamedGroup);
    FilterNone(sorted, IsNamedGroup);
    FilterAll(named, IsNamedGroup);
  }

  /** `Object.entries` lists every entry once, the array-index keys
      before all others and in strictly ascending numeric order, and the
      other keys in creation order. */
  lemma EntriesOrder(groups: seq<Group>)
    requires DistinctKeys(groups)
    ensures multiset(Entries(groups)) == multiset(groups)
    ensures DistinctKeys(Entries(groups))
    ensures forall i, j :: 0 <= i < j < |Entries(groups)| && IsArrayIndex(Entries(groups)[j].key) ==>
      && IsArrayIndex(Entries(groups)[i].key)
      && IndexValue(Entries(groups)[i].key) < IndexValue(Entries(groups)[j].key)
    ensures Filter(Entries(groups), IsNamedGroup) == Filter(groups, IsNamedGroup)
  {
    EntriesKeep(groups);
    DistinctKeysPermutation(groups, Entries(groups));
    EntriesIndexFirst(groups);
    EntriesNamedInOrder(groups);
  }

  /** When no key is an array index the entries come in creation order. */
  lemma EntriesWithoutIndices(groups: seq<Group>)
    requires forall i :: 0 <= i < |groups| ==> !IsArrayIndex(groups[i].key)
    ensures Entries(groups) == groups
  {
    FilterNone(groups, IsIndexGroup);
    FilterAll(groups, IsNamedGroup);
  }

  lemma ExampleKeys()
    ensures StripTags("UserList") == "User"
    ensures StripTags("List1List") == "1"
  {
    UntaggedByOpenings("User");
    StripNameAndTag("User", 0);
    assert "User" + Tags[0] == "UserList";
    var s := "List1List";
    assert s[..4] == "List";
    assert s[4..] == "1" + Tags[0];
    UntaggedByOpenings("1");
    StripNameAndTag("1", 0);
  }

  lemma ExampleGroups()
    ensures GroupComponents(["UserList", "List1List"])
      == [Group("User", ["UserList"]), Group("1", ["List1List"])]
  {
    ExampleKeys();
    GroupsSnoc([], "UserList");
    GroupsSnoc(["UserList"], "List1List");
    assert [] + ["UserList"] == ["UserList"];
    assert ["UserList"] + ["List1List"] == ["UserList", "List1List"];
  }

  lemma ExampleEntries()
    ensures Entries([Group("User", ["UserList"]), Group("1", ["List1List"])])
      == [Group("1", ["List1List"]), Group("User", ["UserList"])]
  {
    var groups := [Group("User", ["UserList"]), Group("1", ["List1List"])];
    ArrayIndexExamples();
    LetterKeyNotIndex("User");
    assert groups[1..] == [groups[1]];
    assert Filter(groups, IsIndexGroup) == [groups[1]];
    assert Filter(groups, IsNamedGroup) == [groups[0]];
  }

  /** `UserList` is grouped under `User` and `List1List` under `1`; the
      `1` entry is created second but listed first. */
  lemma IndexKeyListedFirst()
    ensures Entries(GroupComponents(["UserList", "List1List"]))
      == [Group("1", ["List1List"]), Group("User", ["UserList"])]
  {
    ExampleGroups();
    ExampleEntries();
  }

  // ---------------------------------------------------------------------
  // The descriptor's components

  lemma AllComponentsSnoc(models: seq<Model>, m: Model)
    ensures AllComponents(models + [m]) == AllComponents(models) + Components(m.name)
  {
    var ms := models + [m];
    var blocks := seq(|ms|, i requires 0 <= i < |ms| => Components(ms[i].name));
    var init := seq(|models|, i requires 0 <= i < |models| => Components(models[i].name));
    assert blocks == init + [Components(m.name)];
    FlattenSnoc(init, Components(m.name));
  }

  lemma GroupsSnoc(cs: seq<string>, c: string)
    ensures GroupComponents(cs + [c]) == AddToGroups(GroupComponents(cs), StripTags(c), c)
  {
    assert (cs + [c])[..|cs|] == cs;
  }

  /** Appending components that share a key absent so far adds one entry
      for that key, holding them in order. */
  lemma {:induction false} GroupsAppendSameKey(cs: seq<string>, key: string, ts: seq<string>)
    requires |ts| > 0
    requires forall k :: 0 <= k < |ts| ==> StripTags(ts[k]) == key
    requires DistinctKeys(GroupComponents(cs))
    requires forall i :: 0 <= i < |GroupComponents(cs)| ==> GroupComponents(cs)[i].key != key
    ensures GroupComponents(cs + ts) == GroupComponents(cs) + [Group(key, ts)]
    decreases |ts|
  {
    var init := ts[..|ts| - 1];
    var t := ts[|ts| - 1];
    assert cs + ts == (cs + init) + [t];
    assert init + [t] == ts;
    GroupsSnoc(cs + init, t);
    if |init| == 0 {
      assert cs + init == cs;
      AddToGroupsSpec(GroupComponents(cs), key, t);
    } else {
      GroupsAppendSameKey(cs, key, init);
      ExtendLastGroup(GroupComponents(cs), key, init, t);
    }
  }

  /** Adding to the key of the last entry, which no earlier entry has,
      extends that entry. */
  lemma {:induction false} ExtendLastGroup(groups: seq<Group>, key: string, members: seq<string>, c: string)
    requires forall i :: 0 <= i < |groups| ==> groups[i].key != key
    ensures AddToGroups(groups + [Group(key, members)], key, c) == groups + [Group(key, members + [c])]
    decreases |groups|
  {
    var last := [Group(key, members)];
    if |groups| == 0 {
      assert groups + last == last;
      assert last[1..] == [];
    } else {
      assert (groups + last)[0] == groups[0];
      assert (groups + last)[1..] == groups[1..] + last;
      ExtendLastGroup(groups[1..], key, members, c);
      assert [groups[0]] + (groups[1..] + [Group(key, members + [c])]) == groups + [Group(key, members + [c])];
    }
  }

  /** Appending the four components of a fresh, untagged model name adds
      one group for that name, holding the four in order. */
  lemma GroupsAddModel(cs: seq<string>, name: string)
    requires Untagged(name)
    requires DistinctKeys(GroupComponents(cs))
    requires forall i :: 0 <= i < |GroupComponents(cs)| ==> GroupComponents(cs)[i].key != name
    ensures GroupComponents(cs + Components(name))
      == GroupComponents(cs) + [Group(name, Components(name))]
  {
    var t := Components(name);
    forall k | 0 <= k < 4
      ensures StripTags(t[k]) == name
    {
      StripNameAndTag(name, k);
    }
    GroupsAppendSameKey(cs, name, t);
  }

  /** The groups of a generated descriptor: one per model, named after
      it and holding its four components. */
  function ModelGroups(models: seq<Model>): seq<Group> {
    seq(|models|, i requires 0 <= i < |models| => Group(models[i].name, Components(models[i].name)))
  }

  /** For distinct model names that are untagged, the grouping creates
      one entry per model, in registry order, named after the model and
      holding its four components in order. */
  lemma {:induction false} DescriptorComponentGroups(models: seq<Model>)
    requires DistinctNames(models)
    requires forall i :: 0 <= i < |models| ==> Untagged(models[i].name)
    ensures GroupComponents(AllComponents(models)) == ModelGroups(models)
    decreases |models|
  {
    if |models| > 0 {
      var init := models[..|models| - 1];
      var m := models[|models| - 1];
      assert models == init + [m];
      DescriptorComponentGroups(init);
      AllComponentsSnoc(init, m);
      GroupsAddModel(AllComponents(init), m.name);
      assert ModelGroups(models) == ModelGroups(init) + [Group(m.name, Components(m.name))];
    }
  }

  // ---------------------------------------------------------------------
  // Tables

  /** Each of a model's four components gets the description of its own
      tag, naming the group in lower case; the four tags end in four
      different letters, so no tag test answers for another. */
  lemma DescriptorComponentDescriptions(name: string)
    ensures var low := ToLower(name);
      && ComponentDescription(name, name + "List") == "Lista de " + low + "s com filtros e paginação"
      && ComponentDescription(name, name + "Form") == "Formulário para criar/editar " + low
      && ComponentDescription(name, name + "Detail") == "Visualização detalhada de " + low
      && ComponentDescription(name, name + "Card") == "Card resumido de " + low + " para listagens"
  {
    EndsWithAppended(name, "List", "List");
    EndsWithAppended(name, "Form", "List");
    EndsWithAppended(name, "Detail", "List");
    EndsWithAppended(name, "Detail", "Form");
    EndsWithAppended(name, "Card", "List");
    EndsWithAppended(name, "Card", "Form");
    EndsWithAppended(name, "Card", "Detail");
  }

  function GroupHeading(key: string): string {
    "#### Componentes de " + key
  }

  function GroupHeadings(groups: seq<Group>): seq<string> {
    seq(|groups|, i requires 0 <= i < |groups| => GroupHeading(groups[i].key))
  }

  /** A group's table has its heading and one row per member, in order. */
  lemma GroupTableLayout(g: Group)
    ensures Filter(GroupTable(g), IsHeading) == [GroupHeading(g.key)]
    ensures |GroupTable(g)| == |g.members| + 5
    ensures forall j :: 0 <= j < |g.members| ==>
      GroupTable(g)[4 + j] == Row([g.members[j], ComponentDescription(g.key, g.members[j])])
  {
    RowIsTableLine(["Componente", "Descrição"]);
    RowIsTableLine(["----------", "---------"]);
    var rows := Rows(seq(|g.members|, j requires 0 <= j < |g.members| =>
        [g.members[j], ComponentDescription(g.key, g.members[j])]));
    TableLayout(GroupHeading(g.key), Row(["Componente", "Descrição"]), Row(["----------", "---------"]), rows);
    forall j | 0 <= j < |g.members|
      ensures GroupTable(g)[4 + j] == rows[j]
    {
      assert GroupTable(g)[4..4 + |rows|][j] == rows[j];
    }
  }

  /** The component section has one heading per group, in group order. */
  lemma ComponentTablesHeadings(cs: seq<string>)
    ensures Filter(ComponentTables(cs), IsHeading) == GroupHeadings(Entries(GroupComponents(cs)))
  {
    var groups := Entries(GroupComponents(cs));
    var blocks := seq(|groups|, i requires 0 <= i < |groups| => GroupTable(groups[i]));
    forall i | 0 <= i < |groups|
      ensures Filter(blocks[i], IsHeading) == [GroupHeadings(groups)[i]]
    {
      GroupTableLayout(groups[i]);
    }
    BlocksHeadings(blocks, GroupHeadings(groups));
  }

  /** When no model name is an array index the groups are listed in
      registry order. */
  lemma ModelGroupsInRegistryOrder(models: seq<Model>)
    requires forall i :: 0 <= i < |models| ==> !IsArrayIndex(models[i].name)
    ensures GroupHeadings(Entries(ModelGroups(models)))
      == seq(|models|, i requires 0 <= i < |models| => GroupHeading(models[i].name))
  {
    EntriesWithoutIndices(ModelGroups(models));
  }

  /** For distinct, untagged model names, the component section of the
      descriptor has one table per model, in the order `Object.entries`
      lists the names; when no name is an array index, as for the
      capitalised names the editor accepts, that is registry order. */
  lemma DescriptorComponentHeadings(models: seq<Model>)
    requires DistinctNames(models)
    requires forall i :: 0 <= i < |models| ==> Untagged(models[i].name)
    ensures Filter(ComponentTables(AllComponents(models)), IsHeading)
      == GroupHeadings(Entries(ModelGroups(models)))
    ensures (forall i :: 0 <= i < |models| ==> !IsArrayIndex(models[i].name)) ==>
      Filter(ComponentTables(AllComponents(models)), IsHeading)
        == seq(|models|, i requires 0 <= i < |models| => GroupHeading(models[i].name))
  {
    DescriptorComponentGroups(models);
    ComponentTablesHeadings(AllComponents(models));
    if forall i :: 0 <= i < |models| ==> !IsArrayIndex(models[i].name) {
      ModelGroupsInRegistryOrder(models);
    }
  }
}
