/**
 What the registration and removal of clients does to setting groups
 (src/api/Fig.Api/Services/SettingGroupService.cs:132-292, 339-360), as functions on the
 contents of the groups. SettingGroupService has the methods that edit the entities.
 */
module SettingGroups {
  import opened Text
  import opened Linq

  datatype Source = Source(client: string, setting: string)

  datatype Grouped = Grouped(name: string, description: Option<string>, valueType: string, sources: seq<Source>)

  datatype Group = Group(name: string, settings: seq<Grouped>)

  /** A setting that a client registers into a group. */
  datatype Item = Item(setting: string, group: string, valueType: string)

  // ----- names

  /** The first position of "->", or the length. */
  function ArrowAt(s: string): (i: nat)
    ensures i == |s| || (i + 1 < |s| && s[i] == '-' && s[i + 1] == '>')
    ensures forall j :: 0 <= j < i && j + 1 < |s| ==> !(s[j] == '-' && s[j + 1] == '>')
  {
    if |s| < 2 then |s|
    else if s[0] == '-' && s[1] == '>' then 0
    else 1 + ArrowAt(s[1..])
  }

  /** `Split("->", RemoveEmptyEntries)`. */
  function Parts(s: string): seq<string>
    decreases |s|
  {
    if s == [] then []
    else
      var i := ArrowAt(s);
      if i == |s| then [s] else (if i == 0 then [] else [s[..i]]) + Parts(s[i + 2..])
  }

  function TrimStart(s: string): string {
    if s != [] && IsWhiteSpace(s[0]) then TrimStart(s[1..]) else s
  }

  function TrimEnd(s: string): string {
    if s != [] && IsWhiteSpace(s[|s| - 1]) then TrimEnd(s[..|s| - 1]) else s
  }

  function Trim(s: string): string {
    TrimEnd(TrimStart(s))
  }

  /** `GetLeafName`. */
  function LeafName(name: string): string {
    if IsBlank(name) then ""
    else if Parts(name) == [] then Trim(name) else Trim(Parts(name)[|Parts(name)| - 1])
  }

  function Arrows(n: nat): string {
    if n == 0 then "" else "->" + Arrows(n - 1)
  }

  lemma {:induction false} PartsOfArrows(n: nat)
    ensures Parts(Arrows(n)) == []
  {
    if n > 0 {
      PartsOfArrows(n - 1);
      assert Arrows(n)[2..] == Arrows(n - 1);
    }
  }

  /** Nothing, or an arrow with nothing behind it that is a part. */
  ghost predicate IsTail(tail: string) {
    tail == "" || (|tail| >= 2 && tail[0] == '-' && tail[1] == '>' && Parts(tail[2..]) == [])
  }

  lemma ArrowsAreTail(n: nat)
    ensures IsTail(Arrows(n))
  {
    if n > 0 {
      PartsOfArrows(n - 1);
      assert Arrows(n)[2..] == Arrows(n - 1);
    }
  }

  lemma OnlyPartOf(s: string)
    requires s != "" && ArrowAt(s) > 0
    ensures ArrowAt(s) == |s| ==> Parts(s) == [s]
    ensures ArrowAt(s) < |s| && Parts(s[ArrowAt(s) + 2..]) == [] ==> Parts(s) == [s[..ArrowAt(s)]]
  {
  }

  lemma ArrowBehind(leaf: string, tail: string)
    requires leaf != "" && NoArrow(leaf) && IsTail(tail)
    ensures ArrowAt(leaf + tail) == |leaf|
  {
    var s := leaf + tail;
    assert tail != "" ==> s[|leaf|] == '-' && s[|leaf| + 1] == '>';
  }

  lemma OnlyPart(leaf: string, tail: string)
    requires leaf != "" && NoArrow(leaf) && IsTail(tail)
    ensures Parts(leaf + tail) == [leaf]
  {
    ArrowBehind(leaf, tail);
    OnlyPartOf(leaf + tail);
    assert (leaf + tail)[..|leaf|] == leaf;
    if tail == "" {
      assert leaf + tail == leaf;
    } else {
      assert (leaf + tail)[|leaf| + 2..] == tail[2..];
    }
  }

  lemma {:induction false} LastPart(prefix: string, rest: string)
    requires rest != "" && |Parts(rest)| == 1
    ensures var parts := Parts(prefix + "->" + rest); parts != [] && parts[|parts| - 1] == Parts(rest)[0]
    decreases |prefix|
  {
    var s := prefix + "->" + rest;
    var i := ArrowAt(s);
    assert s[|prefix|] == '-' && s[|prefix| + 1] == '>';
    assert i <= |prefix|;
    if i == |prefix| {
      assert s[i + 2..] == rest;
    } else {
      assert i + 2 <= |prefix|;
      assert s[i + 2..] == prefix[i + 2..] + "->" + rest;
      LastPart(prefix[i + 2..], rest);
    }
  }

  ghost predicate NoArrow(s: string) {
    forall i :: 0 <= i && i + 1 < |s| ==> !(s[i] == '-' && s[i + 1] == '>')
  }

  /** The leaf name is what stands behind the last arrow that has something behind it, without
      the white space around it: no prefix and no trailing arrow makes a difference. */
  lemma LeafNameIgnoresPrefix(prefix: string, leaf: string, n: nat)
    requires leaf != "" && NoArrow(leaf)
    ensures LeafName(prefix + "->" + (leaf + Arrows(n))) == LeafName(leaf) == Trim(leaf)
    ensures !IsBlank(leaf) ==> LeafName(leaf + Arrows(n)) == Trim(leaf)
  {
    ArrowsAreTail(n);
    OnlyPart(leaf, Arrows(n));
    OnlyPart(leaf, "");
    assert leaf + "" == leaf;
    PrefixedLeaf(prefix, leaf + Arrows(n), leaf);
    if i :| 0 <= i < |leaf| && !IsWhiteSpace(leaf[i]) {
      LastIsLeaf(leaf, leaf, i);
      assert (leaf + Arrows(n))[i] == leaf[i];
      LastIsLeaf(leaf + Arrows(n), leaf, i);
    } else {
      var _, _ := TrimIs(leaf);
    }
  }

  lemma PrefixedLeaf(prefix: string, rest: string, leaf: string)
    requires rest != "" && Parts(rest) == [leaf]
    ensures LeafName(prefix + "->" + rest) == Trim(leaf)
  {
    LastPart(prefix, rest);
    assert (prefix + "->" + rest)[|prefix|] == '-';
    LastIsLeaf(prefix + "->" + rest, leaf, |prefix|);
  }

  lemma LastIsLeaf(name: string, leaf: string, i: nat)
    requires i < |name| && !IsWhiteSpace(name[i]) && Parts(name) != [] && Parts(name)[|Parts(name)| - 1] == leaf
    ensures LeafName(name) == Trim(leaf)
  {
    assert !IsBlank(name);
  }

  /** A blank name has the empty leaf name; one of arrows only is its own. */
  lemma LeafNameWithoutLeaf(name: string, n: nat)
    ensures IsBlank(name) ==> LeafName(name) == ""
    ensures LeafName(Arrows(n)) == Arrows(n)
  {
    PartsOfArrows(n);
    if n > 0 {
      ArrowsEnd(n);
      Trimmed(Arrows(n));
    }
  }

  lemma Trimmed(s: string)
    requires s != "" && !IsWhiteSpace(s[0]) && !IsWhiteSpace(s[|s| - 1])
    ensures Trim(s) == s && !IsBlank(s)
  {
  }

  lemma {:induction false} ArrowsEnd(n: nat)
    requires n > 0
    ensures Arrows(n) != "" && Arrows(n)[0] == '-' && Arrows(n)[|Arrows(n)| - 1] == '>'
  {
    assert Arrows(n) == "->" + Arrows(n - 1);
    if n > 1 {
      ArrowsEnd(n - 1);
    }
  }

  lemma {:induction false} TrimStartIs(s: string) returns (k: nat)
    ensures k <= |s| && TrimStart(s) == s[k..] && (k < |s| ==> !IsWhiteSpace(s[k]))
    ensures forall i :: 0 <= i < k ==> IsWhiteSpace(s[i])
  {
    k := 0;
    if s != [] && IsWhiteSpace(s[0]) {
      var k' := TrimStartIs(s[1..]);
      k := k' + 1;
      assert s[1..][k'..] == s[k..];
    }
  }

  lemma {:induction false} TrimEndIs(s: string) returns (k: nat)
    ensures k <= |s| && TrimEnd(s) == s[..k] && (k > 0 ==> !IsWhiteSpace(s[k - 1]))
    ensures forall i :: k <= i < |s| ==> IsWhiteSpace(s[i])
  {
    k := |s|;
    if s != [] && IsWhiteSpace(s[|s| - 1]) {
      k := TrimEndIs(s[..|s| - 1]);
      assert s[..|s| - 1][..k] == s[..k];
    }
  }

  /** Trimming takes away all white space at both ends, and nothing else. */
  lemma TrimIs(s: string) returns (a: nat, b: nat)
    ensures a <= b <= |s| && Trim(s) == s[a..b]
    ensures forall i :: 0 <= i < a || b <= i < |s| ==> IsWhiteSpace(s[i])
    ensures a < b ==> !IsWhiteSpace(s[a]) && !IsWhiteSpace(s[b - 1])
    ensures IsBlank(s) <==> Trim(s) == ""
  {
    a := TrimStartIs(s);
    var t := s[a..];
    var k := TrimEndIs(t);
    b := a + k;
    assert t[..k] == s[a..b];
    forall i | b <= i < |s| ensures IsWhiteSpace(s[i]) {
      assert s[i] == t[i - a];
    }
    if k > 0 {
      assert s[b - 1] == t[k - 1];
    }
  }

  // ----- registration

  predicate IsOf(source: Source, client: string) {
    Fold(source.client) == Fold(client)
  }

  predicate HasLeaf(sources: seq<Source>, leaf: string) {
    exists i :: 0 <= i < |sources| && LeafName(sources[i].setting) == leaf
  }

  predicate Matches(grouped: Grouped, leaf: string) {
    HasLeaf(grouped.sources, leaf) || LeafName(grouped.name) == leaf
  }

  /** The first grouped setting that matches the leaf name, or the length of the list. */
  function FindMatch(settings: seq<Grouped>, leaf: string): (i: nat)
    ensures i <= |settings|
    ensures i < |settings| ==> Matches(settings[i], leaf)
    ensures forall j :: 0 <= j < i ==> !Matches(settings[j], leaf)
  {
    if settings == [] then 0 else if Matches(settings[0], leaf) then 0 else 1 + FindMatch(settings[1..], leaf)
  }

  /** The name, or the setting of a source, ends in the leaf name. */
  ghost predicate SharesLeaf(grouped: Grouped, leaf: string) {
    LeafName(grouped.name) == leaf || exists i :: 0 <= i < |grouped.sources| && LeafName(grouped.sources[i].setting) == leaf
  }

  ghost predicate RefersTo(grouped: Grouped, client: string, setting: string) {
    exists i :: 0 <= i < |grouped.sources| && Fold(grouped.sources[i].client) == Fold(client) && grouped.sources[i].setting == setting
  }

  ghost predicate FirstOfName(groups: seq<Group>, name: string, g: nat) {
    && g < |groups| && Fold(groups[g].name) == Fold(name)
    && forall j :: 0 <= j < g ==> Fold(groups[j].name) != Fold(name)
  }

  ghost predicate FirstOfLeaf(settings: seq<Grouped>, leaf: string, k: nat) {
    && k < |settings| && SharesLeaf(settings[k], leaf)
    && forall j :: 0 <= j < k ==> !SharesLeaf(settings[j], leaf)
  }

  lemma MatchesIs(grouped: Grouped, leaf: string)
    ensures Matches(grouped, leaf) <==> SharesLeaf(grouped, leaf)
  {
    if i :| 0 <= i < |grouped.sources| && LeafName(grouped.sources[i].setting) == leaf {
      assert HasLeaf(grouped.sources, leaf);
    }
  }

  lemma RefersIs(grouped: Grouped, client: string, setting: string)
    ensures Refers(grouped, client, setting) <==> RefersTo(grouped, client, setting)
  {
    if i :| 0 <= i < |grouped.sources| && Fold(grouped.sources[i].client) == Fold(client) && grouped.sources[i].setting == setting {
      assert IsOf(grouped.sources[i], client);
    }
  }

  predicate Refers(grouped: Grouped, client: string, setting: string) {
    exists i :: 0 <= i < |grouped.sources| && IsOf(grouped.sources[i], client) && grouped.sources[i].setting == setting
  }

  function WithSource(grouped: Grouped, client: string, setting: string): Grouped {
    if Refers(grouped, client, setting) then grouped
    else grouped.(sources := grouped.sources + [Source(client, setting)])
  }

  function NewGrouped(client: string, item: Item): Grouped {
    Grouped(item.setting, None, item.valueType, [Source(client, item.setting)])
  }

  /** What registering an item does to the grouped settings of an existing group. */
  function Joined(settings: seq<Grouped>, client: string, item: Item): seq<Grouped> {
    var i := FindMatch(settings, LeafName(item.setting));
    if i == |settings| then settings + [NewGrouped(client, item)]
    else settings[i := WithSource(settings[i], client, item.setting)]
  }

  predicate Named(group: Group, name: string) {
    Fold(group.name) == Fold(name)
  }

  function FindGroup(groups: seq<Group>, name: string): (i: nat)
    ensures i <= |groups|
    ensures i < |groups| ==> Named(groups[i], name)
    ensures forall j :: 0 <= j < i ==> !Named(groups[j], name)
  {
    if groups == [] then 0 else if Named(groups[0], name) then 0 else 1 + FindGroup(groups[1..], name)
  }

  function RegisterItem(groups: seq<Group>, client: string, item: Item): seq<Group> {
    var i := FindGroup(groups, item.group);
    if i == |groups| then groups + [Group(item.group, [NewGrouped(client, item)])]
    else groups[i := groups[i].(settings := Joined(groups[i].settings, client, item))]
  }

  /** `HandleInitialRegistrationGroups` on groups whose names differ. */
  function Register(groups: seq<Group>, client: string, items: seq<Item>): seq<Group> {
    if items == [] then groups
    else RegisterItem(Register(groups, client, items[..|items| - 1]), client, items[|items| - 1])
  }

  /** Registering an item whose group exists. If the first grouped setting with the item's leaf
      name, by its name or by one of its sources, is the one at k, only that one changes, and it
      then refers to the client's setting; a grouped setting is added exactly if none has it. */
  lemma RegisterItemJoins(groups: seq<Group>, client: string, item: Item, g: nat)
    requires FirstOfName(groups, item.group, g)
    ensures var groups', leaf := RegisterItem(groups, client, item), LeafName(item.setting);
            && |groups'| == |groups| && groups'[g].name == groups[g].name
            && (forall j :: 0 <= j < |groups| && j != g ==> groups'[j] == groups[j])
            && var old', new' := groups[g].settings, groups'[g].settings;
            && (|new'| == |old'| <==> exists j :: 0 <= j < |old'| && SharesLeaf(old'[j], leaf))
            && (|new'| != |old'| ==> new' == old' + [Grouped(item.setting, None, item.valueType, [Source(client, item.setting)])])
            && forall k :: 0 <= k < |old'| && FirstOfLeaf(old', leaf, k) ==>
                 && |new'| == |old'| && RefersTo(new'[k], client, item.setting)
                 && (forall j :: 0 <= j < |old'| && j != k ==> new'[j] == old'[j])
                 && new'[k] == if RefersTo(old'[k], client, item.setting) then old'[k]
                               else old'[k].(sources := old'[k].sources + [Source(client, item.setting)])
  {
    FoundGroup(groups, item.group, g);
    JoinedIs(groups[g].settings, client, item);
  }

  /** An item whose group does not exist makes one. */
  lemma RegisterItemCreates(groups: seq<Group>, client: string, item: Item)
    requires forall j :: 0 <= j < |groups| ==> Fold(groups[j].name) != Fold(item.group)
    ensures RegisterItem(groups, client, item)
            == groups + [Group(item.group, [Grouped(item.setting, None, item.valueType, [Source(client, item.setting)])])]
  {
  }

  lemma FoundGroup(groups: seq<Group>, name: string, g: nat)
    requires FirstOfName(groups, name, g)
    ensures FindGroup(groups, name) == g
  {
    var i := FindGroup(groups, name);
    assert Named(groups[g], name);
    assert i < g ==> Named(groups[i], name);
  }

  lemma FoundLeaf(settings: seq<Grouped>, leaf: string)
    ensures var i := FindMatch(settings, leaf);
            && (i < |settings| <==> exists j :: 0 <= j < |settings| && SharesLeaf(settings[j], leaf))
            && (i < |settings| ==> FirstOfLeaf(settings, leaf, i))
            && forall k :: FirstOfLeaf(settings, leaf, k) ==> k == i
  {
    forall j | 0 <= j < |settings| ensures Matches(settings[j], leaf) <==> SharesLeaf(settings[j], leaf) {
      MatchesIs(settings[j], leaf);
    }
  }

  lemma JoinedIs(settings: seq<Grouped>, client: string, item: Item)
    ensures var joined, leaf := Joined(settings, client, item), LeafName(item.setting);
            && (|joined| == |settings| <==> exists j :: 0 <= j < |settings| && SharesLeaf(settings[j], leaf))
            && (|joined| != |settings| ==> joined == settings + [Grouped(item.setting, None, item.valueType, [Source(client, item.setting)])])
            && forall k :: 0 <= k < |settings| && FirstOfLeaf(settings, leaf, k) ==>
                 && |joined| == |settings| && RefersTo(joined[k], client, item.setting)
                 && (forall j :: 0 <= j < |settings| && j != k ==> joined[j] == settings[j])
                 && joined[k] == if RefersTo(settings[k], client, item.setting) then settings[k]
                                 else settings[k].(sources := settings[k].sources + [Source(client, item.setting)])
  {
    FoundLeaf(settings, LeafName(item.setting));
    var i := FindMatch(settings, LeafName(item.setting));
    if i < |settings| {
      RefersIs(settings[i], client, item.setting);
      SourceIsAdded(settings[i], client, item.setting);
    }
  }

  lemma SourceIsAdded(grouped: Grouped, client: string, setting: string)
    ensures RefersTo(grouped.(sources := grouped.sources + [Source(client, setting)]), client, setting)
  {
    var sources := grouped.sources + [Source(client, setting)];
    assert sources[|grouped.sources|] == Source(client, setting);
  }

  // ----- removal

  function Others(client: string): Source -> bool {
    (source: Source) => !IsOf(source, client)
  }

  /** What is left of a grouped setting without the references to the client, if anything. */
  function CleanedOne(grouped: Grouped, client: string): Option<Grouped> {
    var kept := Filter(grouped.sources, Others(client));
    if kept == [] then None else Some(grouped.(sources := kept))
  }

  function Cleaner(client: string): Grouped -> Option<Grouped> {
    (grouped: Grouped) => CleanedOne(grouped, client)
  }

  /** The grouped settings without references to the client, and without empty ones. */
  function Cleaned(settings: seq<Grouped>, client: string): seq<Grouped> {
    Collect(settings, Cleaner(client))
  }

  /** What removing a client leaves of a group: an unmodified group stays even if it is empty,
      a modified group that is empty goes. */
  function Removed(group: Group, client: string): Option<Group> {
    var cleaned := Cleaned(group.settings, client);
    if cleaned == group.settings then Some(group)
    else if cleaned == [] then None else Some(group.(settings := cleaned))
  }

  function Remover(client: string): Group -> Option<Group> {
    (group: Group) => Removed(group, client)
  }

  /** `RemoveClientFromGroups`. */
  function Remove(groups: seq<Group>, client: string): seq<Group> {
    Collect(groups, Remover(client))
  }

  ghost predicate AllOf(sources: seq<Source>, client: string) {
    forall i :: 0 <= i < |sources| ==> Fold(sources[i].client) == Fold(client)
  }

  /** All are the client's, and to settings it has not registered. */
  ghost predicate AllOrphaned(sources: seq<Source>, client: string, names: set<string>) {
    forall i :: 0 <= i < |sources| ==> Fold(sources[i].client) == Fold(client) && sources[i].setting !in names
  }

  /** A grouped setting keeps everything but the references to the client, and goes if it has no
      others. */
  lemma CleanedOneIs(grouped: Grouped, client: string, source: Source)
    ensures var left := CleanedOne(grouped, client);
            && (left.None? <==> AllOf(grouped.sources, client))
            && (left.Some? ==> left.value == grouped.(sources := left.value.sources))
            && (left.Some? ==> (source in left.value.sources <==> source in grouped.sources && Fold(source.client) != Fold(client)))
  {
    FilterEmpty(grouped.sources, Others(client));
    FilterHas(grouped.sources, Others(client), source);
  }

  /** A group goes if it had grouped settings and none has a reference to another client; one that
      stays keeps its name, and is empty only if it was. */
  lemma RemovedIs(group: Group, client: string)
    ensures var left := Removed(group, client);
            && (left.None? <==> group.settings != [] && forall k :: 0 <= k < |group.settings| ==> AllOf(group.settings[k].sources, client))
            && (left.Some? ==> left.value.name == group.name && (left.value.settings == [] <==> group.settings == []))
  {
    CollectEmpty(group.settings, Cleaner(client));
    forall k | 0 <= k < |group.settings|
      ensures Cleaner(client)(group.settings[k]).None? <==> AllOf(group.settings[k].sources, client)
    {
      CleanedOneIs(group.settings[k], client, Source("", ""));
    }
  }

  // ----- validation of a registration

  function Registered(client: string, names: set<string>): Source -> bool {
    (source: Source) => !IsOf(source, client) || source.setting in names
  }

  /** What is left of a grouped setting without the client's references to unregistered
      settings. One that this empties goes; one that was empty before stays. */
  function PrunedOne(grouped: Grouped, client: string, names: set<string>): Option<Grouped> {
    var kept := Filter(grouped.sources, Registered(client, names));
    if kept == grouped.sources then Some(grouped) else if kept == [] then None else Some(grouped.(sources := kept))
  }

  function Pruner(client: string, names: set<string>): Grouped -> Option<Grouped> {
    (grouped: Grouped) => PrunedOne(grouped, client, names)
  }

  function Pruned(settings: seq<Grouped>, client: string, names: set<string>): seq<Grouped> {
    Collect(settings, Pruner(client, names))
  }

  function Validated(group: Group, client: string, names: set<string>): Option<Group> {
    var pruned := Pruned(group.settings, client, names);
    if pruned == group.settings then Some(group)
    else if pruned == [] then None else Some(group.(settings := pruned))
  }

  function Validator(client: string, names: set<string>): Group -> Option<Group> {
    (group: Group) => Validated(group, client, names)
  }

  /** `ValidateClientRegistrationGroups`. */
  function Validate(groups: seq<Group>, client: string, names: set<string>): seq<Group> {
    Collect(groups, Validator(client, names))
  }

  /** A reference is kept if it is another client's or to a registered setting; a grouped setting
      goes if it had references and none is kept. */
  lemma PrunedOneIs(grouped: Grouped, client: string, names: set<string>, source: Source)
    ensures var left := PrunedOne(grouped, client, names);
            && (left.None? <==> grouped.sources != [] && AllOrphaned(grouped.sources, client, names))
            && (left.Some? ==> left.value == grouped.(sources := left.value.sources))
            && (left.Some? ==> (source in left.value.sources <==>
                  source in grouped.sources && (Fold(source.client) != Fold(client) || source.setting in names)))
  {
    FilterEmpty(grouped.sources, Registered(client, names));
    FilterHas(grouped.sources, Registered(client, names), source);
  }

  ghost predicate AllOrphanedIn(grouped: Grouped, client: string, names: set<string>) {
    grouped.sources != [] && AllOrphaned(grouped.sources, client, names)
  }

  /** A group goes if it had grouped settings and none is left. */
  lemma ValidatedIs(group: Group, client: string, names: set<string>)
    ensures var left := Validated(group, client, names);
            && (left.None? <==> && group.settings != []
                                && forall k :: 0 <= k < |group.settings| ==> AllOrphanedIn(group.settings[k], client, names))
            && (left.Some? ==> left.value.name == group.name && (left.value.settings == [] <==> group.settings == []))
  {
    CollectEmpty(group.settings, Pruner(client, names));
    forall k | 0 <= k < |group.settings|
      ensures Pruner(client, names)(group.settings[k]).None? <==> AllOrphanedIn(group.settings[k], client, names)
    {
      PrunedOneIs(group.settings[k], client, names, Source("", ""));
    }
  }

  /** No two groups have names that differ in case only; otherwise registration throws. */
  ghost predicate DistinctNames(groups: seq<Group>) {
    forall i, j :: 0 <= i < j < |groups| ==> !Named(groups[j], groups[i].name)
  }

  // ----- registration is idempotent

  /** Joining an item changes no grouped setting's matches: what it adds has the leaf name that
      the grouped setting already matched. */
  lemma JoinKeepsMatches(settings: seq<Grouped>, client: string, item: Item, k: nat, leaf: string)
    requires k < |settings|
    ensures k < |Joined(settings, client, item)| && (Matches(Joined(settings, client, item)[k], leaf) <==> Matches(settings[k], leaf))
    ensures SharesLeaf(Joined(settings, client, item)[k], leaf) <==> SharesLeaf(settings[k], leaf)
  {
    MatchesIs(settings[k], leaf);
    MatchesIs(Joined(settings, client, item)[k], leaf);
    var i := FindMatch(settings, LeafName(item.setting));
    if k == i {
      SourceKeepsMatches(settings[i], client, item.setting, leaf);
    }
  }

  lemma SourceKeepsMatches(grouped: Grouped, client: string, setting: string, leaf: string)
    requires Matches(grouped, LeafName(setting))
    ensures Matches(WithSource(grouped, client, setting), leaf) <==> Matches(grouped, leaf)
  {
    var sources' := WithSource(grouped, client, setting).sources;
    if HasLeaf(grouped.sources, leaf) {
      var j :| 0 <= j < |grouped.sources| && LeafName(grouped.sources[j].setting) == leaf;
      assert LeafName(sources'[j].setting) == leaf;
    }
    if HasLeaf(sources', leaf) {
      var j :| 0 <= j < |sources'| && LeafName(sources'[j].setting) == leaf;
      if j < |grouped.sources| {
        assert LeafName(grouped.sources[j].setting) == leaf;
      }
    }
  }

  /** The item is where registration would put it. */
  ghost predicate SettledIn(settings: seq<Grouped>, client: string, item: Item) {
    var i := FindMatch(settings, LeafName(item.setting));
    i < |settings| && Refers(settings[i], client, item.setting)
  }

  ghost predicate Settled(groups: seq<Group>, client: string, item: Item) {
    var i := FindGroup(groups, item.group);
    i < |groups| && SettledIn(groups[i].settings, client, item)
  }

  /** The first group with the item's name has, in its first grouped setting with the item's leaf
      name, a reference to the client's setting. */
  ghost predicate IsGrouped(groups: seq<Group>, client: string, item: Item) {
    exists g: nat, k: nat :: && FirstOfName(groups, item.group, g) && FirstOfLeaf(groups[g].settings, LeafName(item.setting), k)
                             && RefersTo(groups[g].settings[k], client, item.setting)
  }

  lemma SettledIsGrouped(groups: seq<Group>, client: string, item: Item)
    ensures Settled(groups, client, item) <==> IsGrouped(groups, client, item)
  {
    var i := FindGroup(groups, item.group);
    if g: nat, k: nat :| FirstOfName(groups, item.group, g) && FirstOfLeaf(groups[g].settings, LeafName(item.setting), k)
                         && RefersTo(groups[g].settings[k], client, item.setting) {
      FoundGroup(groups, item.group, g);
      FoundLeaf(groups[g].settings, LeafName(item.setting));
      RefersIs(groups[g].settings[k], client, item.setting);
    }
    if Settled(groups, client, item) {
      var k := FindMatch(groups[i].settings, LeafName(item.setting));
      FoundLeaf(groups[i].settings, LeafName(item.setting));
      RefersIs(groups[i].settings[k], client, item.setting);
      assert FirstOfName(groups, item.group, i) by {
        assert forall j :: 0 <= j < i ==> !Named(groups[j], item.group);
      }
    }
  }

  lemma JoinSettles(settings: seq<Grouped>, client: string, item: Item)
    ensures SettledIn(Joined(settings, client, item), client, item)
  {
    var leaf := LeafName(item.setting);
    var i := FindMatch(settings, leaf);
    var settings' := Joined(settings, client, item);
    assert settings'[i].sources != [] && Refers(settings'[i], client, item.setting) by {
      var last := |settings'[i].sources| - 1;
      if i == |settings| || !Refers(settings[i], client, item.setting) {
        assert settings'[i].sources[last] == Source(client, item.setting);
      }
    }
    forall k | 0 <= k < i ensures !Matches(settings'[k], leaf) {
      JoinKeepsMatches(settings, client, item, k, leaf);
    }
    if i < |settings| {
      JoinKeepsMatches(settings, client, item, i, leaf);
    } else {
      assert LeafName(settings'[i].name) == leaf;
    }
    assert FindMatch(settings', leaf) == i;
  }

  lemma JoinKeepsSettled(settings: seq<Grouped>, client: string, item: Item, other: Item)
    requires SettledIn(settings, client, item)
    ensures SettledIn(Joined(settings, client, other), client, item)
  {
    var leaf := LeafName(item.setting);
    var i := FindMatch(settings, leaf);
    var settings' := Joined(settings, client, other);
    forall k | 0 <= k < |settings| ensures Matches(settings'[k], leaf) <==> Matches(settings[k], leaf) {
      JoinKeepsMatches(settings, client, other, k, leaf);
    }
    assert FindMatch(settings', leaf) == i;
    var j :| 0 <= j < |settings[i].sources| && IsOf(settings[i].sources[j], client) && settings[i].sources[j].setting == item.setting;
    assert settings'[i].sources[j] == settings[i].sources[j];
  }

  lemma FoundAt(groups: seq<Group>, name: string, i: nat)
    requires i < |groups| && Named(groups[i], name)
    requires forall j :: 0 <= j < i ==> !Named(groups[j], name)
    ensures FindGroup(groups, name) == i
  {
  }

  lemma RegisterItemSettles(groups: seq<Group>, client: string, item: Item)
    ensures Settled(RegisterItem(groups, client, item), client, item)
  {
    var i := FindGroup(groups, item.group);
    FoundAt(RegisterItem(groups, client, item), item.group, i);
    if i < |groups| {
      JoinSettles(groups[i].settings, client, item);
    } else {
      JoinSettles([], client, item);
    }
  }

  lemma RegisterItemKeepsSettled(groups: seq<Group>, client: string, item: Item, other: Item)
    requires Settled(groups, client, item)
    ensures Settled(RegisterItem(groups, client, other), client, item)
  {
    var i := FindGroup(groups, item.group);
    var groups' := RegisterItem(groups, client, other);
    forall k | 0 <= k < |groups| ensures Named(groups'[k], item.group) <==> Named(groups[k], item.group) {
      assert groups'[k].name == groups[k].name;
    }
    FoundAt(groups', item.group, i);
    if FindGroup(groups, other.group) == i {
      JoinKeepsSettled(groups[i].settings, client, item, other);
    }
  }

  lemma RegisterSettledItem(groups: seq<Group>, client: string, item: Item)
    requires Settled(groups, client, item)
    ensures RegisterItem(groups, client, item) == groups
  {
    var i := FindGroup(groups, item.group);
    assert Joined(groups[i].settings, client, item) == groups[i].settings;
  }

  lemma {:induction false} RegisterSettles(groups: seq<Group>, client: string, items: seq<Item>, k: nat)
    requires k < |items|
    ensures Settled(Register(groups, client, items), client, items[k])
    ensures IsGrouped(Register(groups, client, items), client, items[k])
  {
    SettledIsGrouped(Register(groups, client, items), client, items[k]);
    var n := |items| - 1;
    var before := Register(groups, client, items[..n]);
    if k == n {
      RegisterItemSettles(before, client, items[n]);
    } else {
      RegisterSettles(groups, client, items[..n], k);
      RegisterItemKeepsSettled(before, client, items[k], items[n]);
    }
  }

  lemma {:induction false} RegisterSettledItems(groups: seq<Group>, client: string, items: seq<Item>)
    requires forall k :: 0 <= k < |items| ==> Settled(groups, client, items[k])
    ensures Register(groups, client, items) == groups
  {
    if items != [] {
      RegisterSettledItems(groups, client, items[..|items| - 1]);
      RegisterSettledItem(groups, client, items[|items| - 1]);
    }
  }

  /** Registering a list of items a second time, or any part of it, adds nothing. */
  lemma RegistrationIsIdempotent(groups: seq<Group>, client: string, items: seq<Item>, again: seq<Item>)
    requires forall k :: 0 <= k < |again| ==> again[k] in items
    ensures Register(Register(groups, client, items), client, again) == Register(groups, client, items)
  {
    var groups' := Register(groups, client, items);
    forall k | 0 <= k < |again| ensures Settled(groups', client, again[k]) {
      var j :| 0 <= j < |items| && items[j] == again[k];
      RegisterSettles(groups, client, items, j);
    }
    RegisterSettledItems(groups', client, again);
  }

  lemma RegisterItemKeepsDistinct(groups: seq<Group>, client: string, item: Item)
    requires DistinctNames(groups)
    ensures DistinctNames(RegisterItem(groups, client, item))
  {
    var groups' := RegisterItem(groups, client, item);
    forall i, j | 0 <= i < j < |groups'| ensures !Named(groups'[j], groups'[i].name) {
      if j < |groups| {
        assert groups'[i].name == groups[i].name && groups'[j].name == groups[j].name;
        assert !Named(groups[j], groups[i].name);
      } else {
        assert groups'[i].name == groups[i].name && !Named(groups[i], item.group);
      }
    }
  }

  lemma {:induction false} RegisterKeepsDistinct(groups: seq<Group>, client: string, items: seq<Item>)
    requires DistinctNames(groups)
    ensures DistinctNames(Register(groups, client, items))
  {
    if items != [] {
      RegisterKeepsDistinct(groups, client, items[..|items| - 1]);
      RegisterItemKeepsDistinct(Register(groups, client, items[..|items| - 1]), client, items[|items| - 1]);
    }
  }

  // ----- removal undoes registration

  /** A reference of the client is invisible after cleaning. */
  lemma SourceIsCleaned(grouped: Grouped, client: string, setting: string)
    ensures Filter(WithSource(grouped, client, setting).sources, Others(client)) == Filter(grouped.sources, Others(client))
  {
    if !Refers(grouped, client, setting) {
      FilterSnoc(grouped.sources, Source(client, setting), Others(client));
    }
  }

  /** Registering and cleaning leaves what cleaning alone leaves. */
  lemma JoinIsCleaned(settings: seq<Grouped>, client: string, item: Item)
    ensures Cleaned(Joined(settings, client, item), client) == Cleaned(settings, client)
  {
    var i := FindMatch(settings, LeafName(item.setting));
    if i == |settings| {
      FilterSnoc([], Source(client, item.setting), Others(client));
      CollectSnoc(settings, NewGrouped(client, item), Cleaner(client));
    } else {
      SourceIsCleaned(settings[i], client, item.setting);
      CollectUpdate(settings, i, WithSource(settings[i], client, item.setting), Cleaner(client));
    }
  }

  ghost predicate Touched(group: Group, items: seq<Item>) {
    exists k :: 0 <= k < |items| && Named(group, items[k].group)
  }

  /** How a group that was there before compares to what registration made of it. */
  ghost predicate Grown(group: Group, group': Group, client: string, items: seq<Item>) {
    && group'.name == group.name
    && Cleaned(group'.settings, client) == Cleaned(group.settings, client)
    && (!Touched(group, items) ==> group' == group)
    && (group.settings != [] || Touched(group, items) ==> group'.settings != [])
  }

  /** A group that registration created: it holds references of the client only. */
  ghost predicate Created(group: Group, client: string) {
    group.settings != [] && Cleaned(group.settings, client) == []
  }

  ghost predicate Extends(groups: seq<Group>, groups': seq<Group>, client: string, items: seq<Item>) {
    && |groups| <= |groups'|
    && (forall i :: 0 <= i < |groups| ==> Grown(groups[i], groups'[i], client, items))
    && (forall i :: |groups| <= i < |groups'| ==> Created(groups'[i], client))
  }

  lemma TouchedMore(group: Group, items: seq<Item>)
    requires items != []
    ensures Touched(group, items) <==> Touched(group, items[..|items| - 1]) || Named(group, items[|items| - 1].group)
  {
    var init := items[..|items| - 1];
    if Touched(group, items) {
      var k :| 0 <= k < |items| && Named(group, items[k].group);
      if k < |init| {
        assert Named(group, init[k].group);
      }
    }
    if Touched(group, init) {
      var k :| 0 <= k < |init| && Named(group, init[k].group);
      assert Named(group, items[k].group);
    }
  }

  lemma GrowsUntouched(group: Group, group': Group, client: string, items: seq<Item>)
    requires items != [] && Grown(group, group', client, items[..|items| - 1]) && !Named(group, items[|items| - 1].group)
    ensures Grown(group, group', client, items)
  {
    TouchedMore(group, items);
  }

  lemma GrowsTouched(group: Group, group': Group, client: string, items: seq<Item>)
    requires items != [] && Grown(group, group', client, items[..|items| - 1]) && Named(group, items[|items| - 1].group)
    ensures Grown(group, group'.(settings := Joined(group'.settings, client, items[|items| - 1])), client, items)
  {
    TouchedMore(group, items);
    JoinIsCleaned(group'.settings, client, items[|items| - 1]);
  }

  lemma ExtendsStep(groups: seq<Group>, groups': seq<Group>, client: string, items: seq<Item>)
    requires DistinctNames(groups') && items != [] && Extends(groups, groups', client, items[..|items| - 1])
    ensures Extends(groups, RegisterItem(groups', client, items[|items| - 1]), client, items)
  {
    var item := items[|items| - 1];
    var after := RegisterItem(groups', client, item);
    forall i | 0 <= i < |groups| ensures Grown(groups[i], after[i], client, items) {
      GrowsAt(groups[i], groups', client, items, i);
    }
    forall i | |groups| <= i < |after| ensures Created(after[i], client) {
      CreatedAt(groups', client, item, i);
    }
  }

  lemma GrowsAt(group: Group, groups': seq<Group>, client: string, items: seq<Item>, i: nat)
    requires DistinctNames(groups') && items != [] && i < |groups'| && Grown(group, groups'[i], client, items[..|items| - 1])
    ensures Grown(group, RegisterItem(groups', client, items[|items| - 1])[i], client, items)
  {
    if i == FindGroup(groups', items[|items| - 1].group) {
      GrowsTouched(group, groups'[i], client, items);
    } else {
      NamedOnce(groups', items[|items| - 1].group, i);
      GrowsUntouched(group, groups'[i], client, items);
    }
  }

  lemma CreatedAt(groups: seq<Group>, client: string, item: Item, i: nat)
    requires i < |RegisterItem(groups, client, item)| && (i < |groups| ==> Created(groups[i], client))
    ensures Created(RegisterItem(groups, client, item)[i], client)
  {
    if i == FindGroup(groups, item.group) {
      JoinIsCleaned(if i < |groups| then groups[i].settings else [], client, item);
    }
  }

  lemma NamedOnce(groups: seq<Group>, name: string, i: nat)
    requires DistinctNames(groups) && i < |groups| && i != FindGroup(groups, name)
    ensures !Named(groups[i], name)
  {
    var at := FindGroup(groups, name);
    if at < i {
      assert !Named(groups[i], groups[at].name);
    }
  }

  lemma {:induction false} RegisterExtends(groups: seq<Group>, client: string, items: seq<Item>)
    requires DistinctNames(groups)
    ensures Extends(groups, Register(groups, client, items), client, items)
  {
    if items != [] {
      var init := items[..|items| - 1];
      RegisterExtends(groups, client, init);
      RegisterKeepsDistinct(groups, client, init);
      ExtendsStep(groups, Register(groups, client, init), client, items);
    }
  }

  /** Removal takes a created group away, and leaves of a grown group what it would have left
      before, unless the group was empty and has been touched. */
  lemma RemovedGrown(group: Group, group': Group, client: string, items: seq<Item>)
    requires Grown(group, group', client, items)
    ensures group.settings != [] || !Touched(group, items) ==> Removed(group', client) == Removed(group, client)
    ensures group.settings == [] && Touched(group, items) ==> Removed(group', client) == None && Removed(group, client) == Some(group)
  {
  }

  /** Registering a client and removing it leaves what removing it alone leaves, exactly if no
      group that an item names was empty. */
  lemma RemovalAbsorbsRegistration(groups: seq<Group>, client: string, items: seq<Item>)
    requires DistinctNames(groups)
    ensures Remove(Register(groups, client, items), client) == Remove(groups, client) <==>
              (forall i :: 0 <= i < |groups| && groups[i].settings == [] ==> !Touched(groups[i], items))
  {
    var groups' := Register(groups, client, items);
    RegisterExtends(groups, client, items);
    forall i | 0 <= i < |groups|
      ensures groups[i].settings != [] || !Touched(groups[i], items) ==> Removed(groups'[i], client) == Removed(groups[i], client)
      ensures groups[i].settings == [] && Touched(groups[i], items) ==> Removed(groups'[i], client) == None != Removed(groups[i], client)
    {
      RemovedGrown(groups[i], groups'[i], client, items);
    }
    assert Shrinks(groups, groups', Remover(client));
    CollectShrinks(groups, groups', Remover(client));
    assert Agree(groups, groups', Remover(client)) <==>
           forall i :: 0 <= i < |groups| && groups[i].settings == [] ==> !Touched(groups[i], items);
  }

  // ----- which groups removal leaves alone

  ghost predicate FreeOf(settings: seq<Grouped>, client: string) {
    forall i :: 0 <= i < |settings| ==> settings[i].sources != [] && NoneOf(settings[i].sources, client)
  }

  ghost predicate NoneOf(sources: seq<Source>, client: string) {
    forall j :: 0 <= j < |sources| ==> !IsOf(sources[j], client)
  }

  lemma CleanedOneSame(grouped: Grouped, client: string)
    ensures CleanedOne(grouped, client) == Some(grouped) <==> grouped.sources != [] && NoneOf(grouped.sources, client)
  {
    FilterAll(grouped.sources, Others(client));
  }

  lemma CleanedSame(settings: seq<Grouped>, client: string)
    ensures Cleaned(settings, client) == settings <==> FreeOf(settings, client)
  {
    CollectSame(settings, Cleaner(client));
    forall i | 0 <= i < |settings|
      ensures Cleaner(client)(settings[i]) == Some(settings[i]) <==> settings[i].sources != [] && NoneOf(settings[i].sources, client)
    {
      CleanedOneSame(settings[i], client);
    }
  }

  /** Removal leaves groups alone exactly if none has a reference to the client or an empty
      grouped setting. */
  lemma RemovalChangesNothing(groups: seq<Group>, client: string)
    ensures Remove(groups, client) == groups <==> forall i :: 0 <= i < |groups| ==> FreeOf(groups[i].settings, client)
  {
    CollectSame(groups, Remover(client));
    forall i | 0 <= i < |groups| ensures Remover(client)(groups[i]) == Some(groups[i]) <==> FreeOf(groups[i].settings, client) {
      CleanedSame(groups[i].settings, client);
    }
  }

  lemma {:induction false} FilterTwice<T>(s: seq<T>, p: T -> bool, q: T -> bool)
    requires forall x :: q(x) ==> p(x)
    ensures Filter(Filter(s, p), q) == Filter(s, q)
  {
    if s != [] {
      var init, last := s[..|s| - 1], s[|s| - 1];
      FilterTwice(init, p, q);
      if p(last) {
        FilterSnoc(Filter(init, p), last, q);
      } else {
        assert Filter(init, p) + [] == Filter(init, p);
        assert Filter(init, q) + [] == Filter(init, q);
      }
    }
  }

  lemma RemovedTwice(group: Group, client: string)
    ensures var removed := Removed(group, client); removed.Some? ==> Removed(removed.value, client) == removed
  {
    forall i | 0 <= i < |group.settings|
      ensures var f := Cleaner(client);
              f(group.settings[i]) == if f(group.settings[i]).None? then None else f(f(group.settings[i]).value)
    {
      FilterTwice(group.settings[i].sources, Others(client), Others(client));
    }
    CollectTwice(group.settings, Cleaner(client), Cleaner(client), Cleaner(client));
  }

  lemma RemovalIsIdempotent(groups: seq<Group>, client: string)
    ensures Remove(Remove(groups, client), client) == Remove(groups, client)
  {
    forall i | 0 <= i < |groups|
      ensures var f := Remover(client); f(groups[i]) == if f(groups[i]).None? then None else f(f(groups[i]).value)
    {
      RemovedTwice(groups[i], client);
    }
    CollectTwice(groups, Remover(client), Remover(client), Remover(client));
  }

  /** Registering a client and removing it restores exactly the original groups, grouped
      settings and references, in their order, if and only if before the registration no group
      had a reference to the client or an empty grouped setting, and no group that an item names
      was empty. */
  lemma RemovalUndoesRegistration(groups: seq<Group>, client: string, items: seq<Item>)
    requires DistinctNames(groups)
    ensures Remove(Register(groups, client, items), client) == groups <==>
              && (forall i :: 0 <= i < |groups| ==> FreeOf(groups[i].settings, client))
              && (forall i :: 0 <= i < |groups| && groups[i].settings == [] ==> !Touched(groups[i], items))
  {
    RemovalChangesNothing(groups, client);
    RemovalAbsorbsRegistration(groups, client, items);
    RemovalIsIdempotent(Register(groups, client, items), client);
  }

  /** Without the last condition the law fails: a group that has no grouped settings yet is
      deleted with the client that is the first to use it. */
  lemma RegistrationConsumesEmptyGroup()
    ensures var groups := [Group("g", [])];
            Remove(Register(groups, "c", [Item("s", "g", "t")]), "c") == [] != Remove(groups, "c") == groups
  {
    var groups := [Group("g", [])];
    var items := [Item("s", "g", "t")];
    assert Named(groups[0], items[0].group);
    RemovalAbsorbsRegistration(groups, "c", items);
    RemovalChangesNothing(groups, "c");
    RegisterExtends(groups, "c", items);
    assert Register(groups, "c", items[..0]) == groups;
    assert FindGroup(groups, "g") == 0;
    var groups' := Register(groups, "c", items);
    assert |groups'| == 1;
    RemovedGrown(groups[0], groups'[0], "c", items);
    assert groups' == [] + [groups'[0]];
    CollectSnoc([], groups'[0], Remover("c"));
  }

  // ----- validation

  lemma RegisteredIncludesOthers(client: string, names: set<string>)
    ensures forall source :: Others(client)(source) ==> Registered(client, names)(source)
  {
  }

  lemma PrunedThenCleaned(grouped: Grouped, client: string, names: set<string>)
    ensures var pruned := PrunedOne(grouped, client, names);
            CleanedOne(grouped, client) == if pruned.None? then None else CleanedOne(pruned.value, client)
  {
    RegisteredIncludesOthers(client, names);
    FilterTwice(grouped.sources, Registered(client, names), Others(client));
  }

  lemma ValidatedThenRemoved(group: Group, client: string, names: set<string>)
    ensures var validated := Validated(group, client, names);
            Removed(group, client) == if validated.None? then None else Removed(validated.value, client)
  {
    forall i | 0 <= i < |group.settings|
      ensures var f := Pruner(client, names);
              Cleaner(client)(group.settings[i]) == if f(group.settings[i]).None? then None else Cleaner(client)(f(group.settings[i]).value)
    {
      PrunedThenCleaned(group.settings[i], client, names);
    }
    CollectTwice(group.settings, Pruner(client, names), Cleaner(client), Cleaner(client));
  }

  /** Validating before a removal makes no difference. */
  lemma RemovalAbsorbsValidation(groups: seq<Group>, client: string, names: set<string>)
    ensures Remove(Validate(groups, client, names), client) == Remove(groups, client)
  {
    forall i | 0 <= i < |groups|
      ensures var f := Validator(client, names);
              Remover(client)(groups[i]) == if f(groups[i]).None? then None else Remover(client)(f(groups[i]).value)
    {
      ValidatedThenRemoved(groups[i], client, names);
    }
    CollectTwice(groups, Validator(client, names), Remover(client), Remover(client));
  }

  /** No reference of the client is to a setting it has not registered. */
  ghost predicate NoOrphans(settings: seq<Grouped>, client: string, names: set<string>) {
    forall i :: 0 <= i < |settings| ==> AllRegistered(settings[i].sources, client, names)
  }

  ghost predicate AllRegistered(sources: seq<Source>, client: string, names: set<string>) {
    forall j :: 0 <= j < |sources| ==> Registered(client, names)(sources[j])
  }

  lemma PrunedSame(settings: seq<Grouped>, client: string, names: set<string>)
    ensures Pruned(settings, client, names) == settings <==> NoOrphans(settings, client, names)
  {
    CollectSame(settings, Pruner(client, names));
    forall i | 0 <= i < |settings|
      ensures Pruner(client, names)(settings[i]) == Some(settings[i]) <==> AllRegistered(settings[i].sources, client, names)
    {
      FilterAll(settings[i].sources, Registered(client, names));
    }
  }

  /** Validation leaves groups alone exactly if they have no orphaned reference of the client:
      references of other clients, and settings and groups that are empty, do not matter. */
  lemma ValidationChangesNothing(groups: seq<Group>, client: string, names: set<string>)
    ensures Validate(groups, client, names) == groups <==> forall i :: 0 <= i < |groups| ==> NoOrphans(groups[i].settings, client, names)
  {
    CollectSame(groups, Validator(client, names));
    forall i | 0 <= i < |groups|
      ensures Validator(client, names)(groups[i]) == Some(groups[i]) <==> NoOrphans(groups[i].settings, client, names)
    {
      PrunedSame(groups[i].settings, client, names);
    }
  }

  lemma ValidatedTwice(group: Group, client: string, names: set<string>)
    ensures var validated := Validated(group, client, names);
            validated.Some? ==> Validated(validated.value, client, names) == validated
  {
    forall i | 0 <= i < |group.settings|
      ensures var f := Pruner(client, names);
              f(group.settings[i]) == if f(group.settings[i]).None? then None else f(f(group.settings[i]).value)
    {
      FilterTwice(group.settings[i].sources, Registered(client, names), Registered(client, names));
    }
    CollectTwice(group.settings, Pruner(client, names), Pruner(client, names), Pruner(client, names));
  }

  /** After a validation no orphaned reference is left. */
  lemma ValidationIsIdempotent(groups: seq<Group>, client: string, names: set<string>)
    ensures Validate(Validate(groups, client, names), client, names) == Validate(groups, client, names)
    ensures forall i :: 0 <= i < |Validate(groups, client, names)| ==> NoOrphans(Validate(groups, client, names)[i].settings, client, names)
  {
    forall i | 0 <= i < |groups|
      ensures var f := Validator(client, names); f(groups[i]) == if f(groups[i]).None? then None else f(f(groups[i]).value)
    {
      ValidatedTwice(groups[i], client, names);
    }
    CollectTwice(groups, Validator(client, names), Validator(client, names), Validator(client, names));
    ValidationChangesNothing(Validate(groups, client, names), client, names);
  }

  lemma JoinAddsNoOrphan(settings: seq<Grouped>, client: string, item: Item, names: set<string>)
    requires NoOrphans(settings, client, names) && item.setting in names
    ensures NoOrphans(Joined(settings, client, item), client, names)
  {
    var settings' := Joined(settings, client, item);
    forall i | 0 <= i < |settings'| ensures AllRegistered(settings'[i].sources, client, names) {
      forall j | 0 <= j < |settings'[i].sources| ensures Registered(client, names)(settings'[i].sources[j]) {
        if i < |settings| && j < |settings[i].sources| {
          assert AllRegistered(settings[i].sources, client, names);
        }
      }
    }
  }

  /** Registering settings that the client has, and then validating, removes nothing new: what
      was registered survives a validation against a list that names it. */
  lemma {:induction false} RegistrationSurvivesValidation(groups: seq<Group>, client: string, items: seq<Item>, names: set<string>)
    requires Validate(groups, client, names) == groups
    requires forall k :: 0 <= k < |items| ==> items[k].setting in names
    ensures Validate(Register(groups, client, items), client, names) == Register(groups, client, items)
  {
    if items != [] {
      var init, item := items[..|items| - 1], items[|items| - 1];
      RegistrationSurvivesValidation(groups, client, init, names);
      var before, after := Register(groups, client, init), Register(groups, client, items);
      ValidationChangesNothing(before, client, names);
      forall i | 0 <= i < |after| ensures NoOrphans(after[i].settings, client, names) {
        if i == FindGroup(before, item.group) {
          JoinAddsNoOrphan(if i < |before| then before[i].settings else [], client, item, names);
        }
      }
      ValidationChangesNothing(after, client, names);
    }
  }

  // ----- which references are left

  const SourcesOf: Grouped -> seq<Source> := (grouped: Grouped) => grouped.sources

  const AllSourcesOf: Group -> seq<Source> := (group: Group) => FlatMap(group.settings, SourcesOf)

  /** All references of all groups, in order. */
  function References(groups: seq<Group>): seq<Source> {
    FlatMap(groups, AllSourcesOf)
  }

  /** Removal leaves exactly the references of other clients, in their order. */
  lemma RemovalLeavesOthers(groups: seq<Group>, client: string)
    ensures References(Remove(groups, client)) == Filter(References(groups), Others(client))
    ensures forall source :: source in References(Remove(groups, client)) <==>
              source in References(groups) && Fold(source.client) != Fold(client)
  {
    forall source
      ensures source in Filter(References(groups), Others(client)) <==> source in References(groups) && Fold(source.client) != Fold(client)
    {
      FilterHas(References(groups), Others(client), source);
    }
    forall i | 0 <= i < |groups|
      ensures Filter(AllSourcesOf(groups[i]), Others(client))
              == if Remover(client)(groups[i]).None? then [] else AllSourcesOf(Remover(client)(groups[i]).value)
    {
      CollectFilters(groups[i].settings, Cleaner(client), SourcesOf, Others(client));
    }
    CollectFilters(groups, Remover(client), AllSourcesOf, Others(client));
  }

  lemma PrunedLeaves(grouped: Grouped, client: string, names: set<string>)
    ensures Filter(SourcesOf(grouped), Registered(client, names))
            == if Pruner(client, names)(grouped).None? then [] else SourcesOf(Pruner(client, names)(grouped).value)
  {
  }

  /** Validation leaves exactly the references of other clients and those to settings that the
      client has registered, in their order. */
  lemma ValidationLeavesRegistered(groups: seq<Group>, client: string, names: set<string>)
    ensures References(Validate(groups, client, names)) == Filter(References(groups), Registered(client, names))
    ensures forall source :: source in References(Validate(groups, client, names)) <==>
              source in References(groups) && (Fold(source.client) != Fold(client) || source.setting in names)
  {
    forall source
      ensures source in Filter(References(groups), Registered(client, names)) <==>
              source in References(groups) && (Fold(source.client) != Fold(client) || source.setting in names)
    {
      FilterHas(References(groups), Registered(client, names), source);
    }
    forall i | 0 <= i < |groups|
      ensures Filter(AllSourcesOf(groups[i]), Registered(client, names))
              == if Validator(client, names)(groups[i]).None? then [] else AllSourcesOf(Validator(client, names)(groups[i]).value)
    {
      forall k | 0 <= k < |groups[i].settings|
        ensures Filter(SourcesOf(groups[i].settings[k]), Registered(client, names))
                == if Pruner(client, names)(groups[i].settings[k]).None? then []
                   else SourcesOf(Pruner(client, names)(groups[i].settings[k]).value)
      {
        PrunedLeaves(groups[i].settings[k], client, names);
      }
      CollectFilters(groups[i].settings, Pruner(client, names), SourcesOf, Registered(client, names));
    }
    CollectFilters(groups, Validator(client, names), AllSourcesOf, Registered(client, names));
  }
}
