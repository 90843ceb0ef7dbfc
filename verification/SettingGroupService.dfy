/**
 The methods that edit setting groups when a client is registered, validated or removed
 (src/api/Fig.Api/Services/SettingGroupService.cs:132-292). The grouped settings of an entity
 are stored as JSON text; each method reads them, edits the list and writes it back.
 */
module SettingGroupService {
  import opened Text
  import opened Linq
  import opened SettingGroups

  class GroupEntity {
    const name: string
    var settings: seq<Grouped>
    var lastModifiedBy: string

    constructor (name: string, settings: seq<Grouped>)
      ensures this.name == name && this.settings == settings
    {
      this.name, this.settings, this.lastModifiedBy := name, settings, "System";
    }
  }

  function Contents(entity: GroupEntity): Group
    reads entity
  {
    Group(entity.name, entity.settings)
  }

  /** What the entities contain, in the order of the repository. */
  function View(entities: seq<GroupEntity>): (groups: seq<Group>)
    reads entities
    ensures |groups| == |entities|
    ensures forall i :: 0 <= i < |entities| ==> groups[i] == Contents(entities[i])
  {
    seq(|entities|, i requires 0 <= i < |entities| reads entities => Contents(entities[i]))
  }

  ghost predicate Distinct(entities: seq<GroupEntity>) {
    forall i, j :: 0 <= i < j < |entities| ==> entities[i] != entities[j]
  }

  class Repository {
    var groups: seq<GroupEntity>

    constructor ()
      ensures groups == []
    {
      groups := [];
    }

    method DeleteGroup(entity: GroupEntity, ghost at: nat)
      requires at < |groups| && groups[at] == entity && Distinct(groups)
      modifies this
      ensures groups == old(groups)[..at] + old(groups)[at + 1..]
    {
      var i := 0;
      while groups[i] != entity
        invariant 0 <= i <= at
        decreases at - i
      {
        i := i + 1;
      }
      groups := groups[..i] + groups[i + 1..];
    }
  }

  datatype Outcome = Fine | DuplicateName

  class Service {
    const repository: Repository

    constructor (repository: Repository)
      ensures this.repository == repository
    {
      this.repository := repository;
    }

    /** What is left of a grouped setting, and whether that is less than all of it. */
    method RemoveReferences(grouped: Grouped, clientName: string) returns (left: Option<Grouped>, modified: bool)
      ensures left == CleanedOne(grouped, clientName)
      ensures modified <==> left != Some(grouped)
    {
      var sources := Filter(grouped.sources, Others(clientName));
      FilterLength(grouped.sources, Others(clientName));
      modified := |grouped.sources| - |sources| > 0;
      left := Some(grouped.(sources := sources));
      if |sources| == 0 {
        left, modified := None, true;
      }
    }

    method RemoveFromSettings(settings: seq<Grouped>, clientName: string) returns (kept: seq<Grouped>, modified: bool)
      ensures kept == Cleaned(settings, clientName)
      ensures modified <==> kept != settings
    {
      kept, modified := [], false;
      for i := 0 to |settings|
        invariant kept == Collect(settings[..i], Cleaner(clientName))
        invariant modified <==> !Fixed(settings[..i], Cleaner(clientName))
      {
        var left, changed := RemoveReferences(settings[i], clientName);
        if changed {
          modified := true;
        }
        if left.Some? {
          kept := kept + [left.value];
        }
        CollectStep(settings, i, Cleaner(clientName));
      }
      assert settings[..|settings|] == settings;
      CollectSame(settings, Cleaner(clientName));
    }

    /** The body of the loop over all groups. */
    method RemoveFromGroup(entity: GroupEntity, clientName: string, ghost at: nat)
      requires at < |repository.groups| && repository.groups[at] == entity && Distinct(repository.groups)
      modifies repository, entity
      ensures Edited(Removed(old(Contents(entity)), clientName), entity, repository, old(repository.groups), at)
    {
      var groupedSettings, modified := RemoveFromSettings(entity.settings, clientName);
      if !modified {
        return;
      }
      if |groupedSettings| == 0 {
        repository.DeleteGroup(entity, at);
      } else {
        entity.settings := groupedSettings;
        entity.lastModifiedBy := "System";
      }
    }

    method RemoveStep(clientName: string, allGroups: seq<GroupEntity>, i: nat, ghost before: seq<Group>, ghost kept: seq<GroupEntity>)
      returns (ghost kept': seq<GroupEntity>)
      requires i < |allGroups| == |before|
      requires InLoop(repository.groups, kept, allGroups, i) && Untouched(allGroups, before, i)
      modifies repository, allGroups[i]
      ensures InLoop(repository.groups, kept', allGroups, i + 1) && Untouched(allGroups, before, i + 1)
      ensures View(kept') == old(View(kept)) + ToList(Removed(before[i], clientName))
    {
      NextInLoop(repository.groups, kept, allGroups, i);
      RemoveFromGroup(allGroups[i], clientName, |kept|);
      kept' := kept;
      if Removed(before[i], clientName).Some? {
        kept' := kept + [allGroups[i]];
        assert kept'[..|kept|] == kept;
      }
    }

    method RemoveNext(clientName: string, allGroups: seq<GroupEntity>, i: nat, ghost before: seq<Group>, ghost kept: seq<GroupEntity>)
      returns (ghost kept': seq<GroupEntity>)
      requires i < |allGroups| && LoopInv(repository, kept, allGroups, before, i, Remover(clientName))
      modifies repository, allGroups[i]
      ensures LoopInv(repository, kept', allGroups, before, i + 1, Remover(clientName))
    {
      kept' := RemoveStep(clientName, allGroups, i, before, kept);
      NextCollected(before, i, Remover(clientName), Removed(before[i], clientName));
    }

    /** `RemoveClientFromGroups`. */
    method RemoveClientFromGroups(clientName: string)
      requires Distinct(repository.groups)
      modifies repository, repository.groups
      ensures View(repository.groups) == Remove(old(View(repository.groups)), clientName)
      ensures forall source :: source in References(View(repository.groups)) <==>
                source in References(old(View(repository.groups))) && Fold(source.client) != Fold(clientName)
      ensures Distinct(repository.groups)
    {
      RemovalLeavesOthers(View(repository.groups), clientName);
      var allGroups := repository.groups;
      ghost var before := View(allGroups);
      ghost var kept: seq<GroupEntity> := [];
      LoopStarts(repository, allGroups, Remover(clientName));
      for i := 0 to |allGroups|
        invariant LoopInv(repository, kept, allGroups, before, i, Remover(clientName))
      {
        kept := RemoveNext(clientName, allGroups, i, before, kept);
      }
      LoopEnds(repository, kept, allGroups, before, Remover(clientName));
    }

    // ----- validation

    method PruneReferences(grouped: Grouped, clientName: string, lookup: set<string>) returns (left: Option<Grouped>, modified: bool)
      ensures left == PrunedOne(grouped, clientName, lookup)
      ensures modified <==> left != Some(grouped)
    {
      var sources := Filter(grouped.sources, Registered(clientName, lookup));
      FilterLength(grouped.sources, Registered(clientName, lookup));
      if |grouped.sources| - |sources| == 0 {
        return Some(grouped), false;
      }
      left, modified := Some(grouped.(sources := sources)), true;
      if |sources| == 0 {
        left := None;
      }
    }

    method PruneSettings(settings: seq<Grouped>, clientName: string, lookup: set<string>) returns (kept: seq<Grouped>, modified: bool)
      ensures kept == Pruned(settings, clientName, lookup)
      ensures modified <==> kept != settings
    {
      kept, modified := [], false;
      for i := 0 to |settings|
        invariant kept == Collect(settings[..i], Pruner(clientName, lookup))
        invariant modified <==> !Fixed(settings[..i], Pruner(clientName, lookup))
      {
        var left, changed := PruneReferences(settings[i], clientName, lookup);
        if changed {
          modified := true;
        }
        if left.Some? {
          kept := kept + [left.value];
        }
        CollectStep(settings, i, Pruner(clientName, lookup));
      }
      assert settings[..|settings|] == settings;
      CollectSame(settings, Pruner(clientName, lookup));
    }

    method ValidateGroup(entity: GroupEntity, clientName: string, lookup: set<string>, ghost at: nat)
      requires at < |repository.groups| && repository.groups[at] == entity && Distinct(repository.groups)
      modifies repository, entity
      ensures Edited(Validated(old(Contents(entity)), clientName, lookup), entity, repository, old(repository.groups), at)
    {
      var groupedSettings, modified := PruneSettings(entity.settings, clientName, lookup);
      if !modified {
        return;
      }
      if |groupedSettings| == 0 {
        repository.DeleteGroup(entity, at);
        return;
      }
      entity.settings := groupedSettings;
      entity.lastModifiedBy := "System";
    }

    method ValidateStep(clientName: string, lookup: set<string>, allGroups: seq<GroupEntity>, i: nat, ghost before: seq<Group>, ghost kept: seq<GroupEntity>)
      returns (ghost kept': seq<GroupEntity>)
      requires i < |allGroups| == |before|
      requires InLoop(repository.groups, kept, allGroups, i) && Untouched(allGroups, before, i)
      modifies repository, allGroups[i]
      ensures InLoop(repository.groups, kept', allGroups, i + 1) && Untouched(allGroups, before, i + 1)
      ensures View(kept') == old(View(kept)) + ToList(Validated(before[i], clientName, lookup))
    {
      NextInLoop(repository.groups, kept, allGroups, i);
      ValidateGroup(allGroups[i], clientName, lookup, |kept|);
      kept' := kept;
      if Validated(before[i], clientName, lookup).Some? {
        kept' := kept + [allGroups[i]];
        assert kept'[..|kept|] == kept;
      }
    }

    method ValidateNext(clientName: string, lookup: set<string>, allGroups: seq<GroupEntity>, i: nat, ghost before: seq<Group>, ghost kept: seq<GroupEntity>)
      returns (ghost kept': seq<GroupEntity>)
      requires i < |allGroups| && LoopInv(repository, kept, allGroups, before, i, Validator(clientName, lookup))
      modifies repository, allGroups[i]
      ensures LoopInv(repository, kept', allGroups, before, i + 1, Validator(clientName, lookup))
    {
      kept' := ValidateStep(clientName, lookup, allGroups, i, before, kept);
      NextCollected(before, i, Validator(clientName, lookup), Validated(before[i], clientName, lookup));
    }

    method ValidateGroups(clientName: string, lookup: set<string>)
      requires Distinct(repository.groups)
      modifies repository, repository.groups
      ensures View(repository.groups) == Validate(old(View(repository.groups)), clientName, lookup)
      ensures Distinct(repository.groups)
    {
      var allGroups := repository.groups;
      ghost var before := View(allGroups);
      ghost var kept: seq<GroupEntity> := [];
      LoopStarts(repository, allGroups, Validator(clientName, lookup));
      for i := 0 to |allGroups|
        invariant LoopInv(repository, kept, allGroups, before, i, Validator(clientName, lookup))
      {
        kept := ValidateNext(clientName, lookup, allGroups, i, before, kept);
      }
      LoopEnds(repository, kept, allGroups, before, Validator(clientName, lookup));
    }

    /** `ValidateClientRegistrationGroups`. */
    method ValidateClientRegistrationGroups(clientName: string, registeredSettingNames: seq<string>)
      requires Distinct(repository.groups)
      modifies repository, repository.groups
      ensures View(repository.groups) == Validate(old(View(repository.groups)), clientName, Lookup(registeredSettingNames))
      ensures forall source :: source in References(View(repository.groups)) <==>
                && source in References(old(View(repository.groups)))
                && (Fold(source.client) != Fold(clientName) || (source.setting in registeredSettingNames && !IsBlank(source.setting)))
      ensures Distinct(repository.groups)
    {
      ValidationLeavesRegistered(View(repository.groups), clientName, Lookup(registeredSettingNames));
      ValidateGroups(clientName, Lookup(registeredSettingNames));
    }

    // ----- registration

    /** The grouped settings of an existing group with an item added. */
    method Join(settings: seq<Grouped>, clientName: string, item: Item) returns (joined: seq<Grouped>)
      ensures joined == Joined(settings, clientName, item)
    {
      var i := FindMatch(settings, LeafName(item.setting));
      if i < |settings| {
        var matching := settings[i];
        if !Refers(matching, clientName, item.setting) {
          matching := matching.(sources := matching.sources + [Source(clientName, item.setting)]);
        }
        joined := settings[i := matching];
      } else {
        joined := settings + [Grouped(item.setting, None, item.valueType, [Source(clientName, item.setting)])];
      }
    }

    /** `ToDictionary` with names compared without case; fails on a name that is there twice. */
    method GroupsByName() returns (outcome: Outcome, byName: map<string, GroupEntity>)
      ensures outcome.Fine? <==> DistinctNames(View(repository.groups))
      ensures outcome.Fine? ==> IsIndex(byName, repository.groups)
    {
      byName := map[];
      for i := 0 to |repository.groups|
        invariant IndexesFirst(byName, repository.groups, i)
        invariant FirstDiffer(repository.groups, i)
      {
        var entity := repository.groups[i];
        if Fold(entity.name) in byName {
          SameNames(byName, repository.groups, i);
          return DuplicateName, byName;
        }
        IndexGrows(byName, repository.groups, i);
        byName := byName[Fold(entity.name) := entity];
      }
      AllDiffer(repository.groups);
      outcome := Fine;
    }

    method RegisterInto(existing: GroupEntity, clientName: string, item: Item, ghost at: nat)
      requires Distinct(repository.groups) && at < |repository.groups| && repository.groups[at] == existing
      requires FindGroup(View(repository.groups), item.group) == at
      modifies existing
      ensures View(repository.groups) == RegisterItem(old(View(repository.groups)), clientName, item)
    {
      ghost var before := View(repository.groups);
      existing.settings := Join(existing.settings, clientName, item);
      existing.lastModifiedBy := "System";
      assert View(repository.groups) == before[at := Contents(existing)];
    }

    method RegisterNew(clientName: string, item: Item) returns (entity: GroupEntity)
      requires Distinct(repository.groups) && FindGroup(View(repository.groups), item.group) == |repository.groups|
      modifies repository
      ensures fresh(entity) && entity.name == item.group
      ensures repository.groups == old(repository.groups) + [entity]
      ensures View(repository.groups) == RegisterItem(old(View(repository.groups)), clientName, item)
    {
      ghost var entities, before := repository.groups, View(repository.groups);
      entity := new GroupEntity(item.group, [Grouped(item.setting, None, item.valueType, [Source(clientName, item.setting)])]);
      assert View(entities) == before;
      repository.groups := repository.groups + [entity];
      assert repository.groups[..|entities|] == entities;
    }

    method RegisterFound(clientName: string, item: Item, byName: map<string, GroupEntity>)
      requires Distinct(repository.groups) && IsIndex(byName, repository.groups) && DistinctNames(View(repository.groups))
      requires Fold(item.group) in byName
      modifies repository.groups
      ensures View(repository.groups) == RegisterItem(old(View(repository.groups)), clientName, item)
    {
      ghost var at := FoundByName(byName, repository.groups, item.group);
      RegisterInto(byName[Fold(item.group)], clientName, item, at);
    }

    method RegisterMissing(clientName: string, item: Item, byName: map<string, GroupEntity>)
      returns (byName': map<string, GroupEntity>, ghost added: set<GroupEntity>)
      requires Distinct(repository.groups) && IsIndex(byName, repository.groups)
      requires Fold(item.group) !in byName
      modifies repository
      ensures fresh(added) && Within(repository.groups, old(repository.groups), added)
      ensures Distinct(repository.groups) && IsIndex(byName', repository.groups)
      ensures View(repository.groups) == RegisterItem(old(View(repository.groups)), clientName, item)
    {
      NotFound(byName, repository.groups, item.group);
      ghost var entities := repository.groups;
      var entity := RegisterNew(clientName, item);
      IndexGrowsNew(byName, entities, entity);
      byName' := byName[Fold(item.group) := entity];
      added := {entity};
    }

    /** The body of the loop over the registered settings. */
    method RegisterOne(clientName: string, item: Item, byName: map<string, GroupEntity>)
      returns (byName': map<string, GroupEntity>, ghost added: set<GroupEntity>)
      requires Distinct(repository.groups) && IsIndex(byName, repository.groups) && DistinctNames(View(repository.groups))
      modifies repository, repository.groups
      ensures fresh(added) && Within(repository.groups, old(repository.groups), added)
      ensures Distinct(repository.groups) && IsIndex(byName', repository.groups)
      ensures View(repository.groups) == RegisterItem(old(View(repository.groups)), clientName, item)
    {
      if Fold(item.group) in byName {
        RegisterFound(clientName, item, byName);
        byName', added := byName, {};
      } else {
        byName', added := RegisterMissing(clientName, item, byName);
      }
    }

    method RegisterAll(clientName: string, items: seq<Item>, index: map<string, GroupEntity>)
      requires Distinct(repository.groups) && IsIndex(index, repository.groups) && DistinctNames(View(repository.groups))
      modifies repository, repository.groups
      ensures View(repository.groups) == Register(old(View(repository.groups)), clientName, items)
      ensures Distinct(repository.groups)
    {
      var byName := index;
      ghost var before := View(repository.groups);
      ghost var created: set<GroupEntity> := {};
      for i := 0 to |items|
        invariant Distinct(repository.groups) && IsIndex(byName, repository.groups)
        invariant View(repository.groups) == Register(before, clientName, items[..i])
        invariant fresh(created) && Within(repository.groups, old(repository.groups), created)
      {
        RegisterKeepsDistinct(before, clientName, items[..i]);
        ghost var added;
        byName, added := RegisterOne(clientName, items[i], byName);
        created := created + added;
        RegisterStep(before, clientName, items, i);
      }
      assert items[..|items|] == items;
    }

    /** `HandleInitialRegistrationGroups`. Two groups with names that differ in case only make
        it fail before anything is changed. */
    method HandleInitialRegistrationGroups(clientName: string, settingsWithGroups: seq<Item>) returns (outcome: Outcome)
      requires Distinct(repository.groups)
      modifies repository, repository.groups
      ensures outcome.Fine? <==> DistinctNames(old(View(repository.groups)))
      ensures View(repository.groups) ==
        if outcome.Fine? then Register(old(View(repository.groups)), clientName, settingsWithGroups) else old(View(repository.groups))
      ensures outcome.Fine? <==>
        forall i, j :: 0 <= i < j < |old(repository.groups)| ==> Fold(old(repository.groups)[i].name) != Fold(old(repository.groups)[j].name)
      ensures outcome.Fine? ==>
        forall k :: 0 <= k < |settingsWithGroups| ==> IsGrouped(View(repository.groups), clientName, settingsWithGroups[k])
      ensures Distinct(repository.groups)
    {
      AllDiffer(repository.groups);
      var byName;
      outcome, byName := GroupsByName();
      if outcome.Fine? {
        RegisterAll(clientName, settingsWithGroups, byName);
        forall k | 0 <= k < |settingsWithGroups| ensures IsGrouped(View(repository.groups), clientName, settingsWithGroups[k]) {
          RegisterSettles(old(View(repository.groups)), clientName, settingsWithGroups, k);
        }
      }
    }
  }

  lemma RegisterStep(groups: seq<Group>, client: string, items: seq<Item>, i: nat)
    requires i < |items|
    ensures Register(groups, client, items[..i + 1]) == RegisterItem(Register(groups, client, items[..i]), client, items[i])
  {
    assert items[..i + 1][..i] == items[..i];
  }

  ghost predicate Within(entities: seq<GroupEntity>, base: seq<GroupEntity>, created: set<GroupEntity>) {
    forall k :: 0 <= k < |entities| ==> entities[k] in base || entities[k] in created
  }

  // ----- the dictionary of groups

  ghost predicate Under(entities: seq<GroupEntity>, k: nat, key: string, entity: GroupEntity) {
    k < |entities| && entities[k] == entity && Fold(entity.name) == key
  }

  /** The dictionary has exactly the first n entities, under their folded names. */
  ghost predicate IndexesFirst(byName: map<string, GroupEntity>, entities: seq<GroupEntity>, n: nat) {
    && n <= |entities|
    && (forall k :: 0 <= k < n ==> Fold(entities[k].name) in byName)
    && (forall key :: key in byName ==> exists k :: 0 <= k < n && Under(entities, k, key, byName[key]))
  }

  ghost predicate IsIndex(byName: map<string, GroupEntity>, entities: seq<GroupEntity>) {
    IndexesFirst(byName, entities, |entities|)
  }

  ghost predicate FirstDiffer(entities: seq<GroupEntity>, n: nat)
    requires n <= |entities|
  {
    forall i, j :: 0 <= i < j < n ==> Fold(entities[i].name) != Fold(entities[j].name)
  }

  lemma AllDiffer(entities: seq<GroupEntity>)
    ensures DistinctNames(View(entities)) <==> FirstDiffer(entities, |entities|)
  {
    var groups := View(entities);
    forall i, j | 0 <= i < j < |entities| ensures Named(groups[j], groups[i].name) <==> Fold(entities[i].name) == Fold(entities[j].name) {
      assert groups[i] == Contents(entities[i]) && groups[j] == Contents(entities[j]);
    }
  }

  lemma SameNames(byName: map<string, GroupEntity>, entities: seq<GroupEntity>, i: nat)
    requires IndexesFirst(byName, entities, i) && i < |entities| && Fold(entities[i].name) in byName
    ensures !DistinctNames(View(entities))
  {
    var k :| 0 <= k < i && Under(entities, k, Fold(entities[i].name), byName[Fold(entities[i].name)]);
    var groups := View(entities);
    assert Named(groups[i], groups[k].name);
  }

  lemma IndexGrows(byName: map<string, GroupEntity>, entities: seq<GroupEntity>, n: nat)
    requires IndexesFirst(byName, entities, n) && n < |entities| && FirstDiffer(entities, n) && Fold(entities[n].name) !in byName
    ensures IndexesFirst(byName[Fold(entities[n].name) := entities[n]], entities, n + 1) && FirstDiffer(entities, n + 1)
  {
    var byName' := byName[Fold(entities[n].name) := entities[n]];
    forall key | key in byName' ensures exists k :: 0 <= k < n + 1 && Under(entities, k, key, byName'[key]) {
      if key == Fold(entities[n].name) {
        assert Under(entities, n, key, byName'[key]);
      }
    }
  }

  lemma IndexGrowsNew(byName: map<string, GroupEntity>, entities: seq<GroupEntity>, entity: GroupEntity)
    requires IsIndex(byName, entities) && Fold(entity.name) !in byName
    ensures IsIndex(byName[Fold(entity.name) := entity], entities + [entity])
  {
    var longer, byName' := entities + [entity], byName[Fold(entity.name) := entity];
    forall key | key in byName' ensures exists k :: 0 <= k < |longer| && Under(longer, k, key, byName'[key]) {
      if key == Fold(entity.name) {
        assert Under(longer, |entities|, key, entity);
      } else {
        var k :| 0 <= k < |entities| && Under(entities, k, key, byName[key]);
        assert Under(longer, k, key, byName'[key]);
      }
    }
  }

  lemma FoundByName(byName: map<string, GroupEntity>, entities: seq<GroupEntity>, name: string) returns (at: nat)
    requires IsIndex(byName, entities) && DistinctNames(View(entities)) && Fold(name) in byName
    ensures at < |entities| && entities[at] == byName[Fold(name)] && FindGroup(View(entities), name) == at
  {
    at :| 0 <= at < |entities| && Under(entities, at, Fold(name), byName[Fold(name)]);
    var groups := View(entities);
    assert Named(groups[at], name);
    var i := FindGroup(groups, name);
    assert i < at ==> !Named(groups[at], groups[i].name);
  }

  lemma NotFound(byName: map<string, GroupEntity>, entities: seq<GroupEntity>, name: string)
    requires IsIndex(byName, entities) && Fold(name) !in byName
    ensures FindGroup(View(entities), name) == |entities|
  {
    var groups := View(entities);
    forall i | 0 <= i < |entities| ensures !Named(groups[i], name) {
      assert Fold(entities[i].name) in byName;
    }
  }

  /** The next entity of a loop is not among those kept or still to come, and taking it away or
      keeping it leads to the next state of the loop. */
  lemma NextInLoop(groups: seq<GroupEntity>, kept: seq<GroupEntity>, all: seq<GroupEntity>, i: nat)
    requires InLoop(groups, kept, all, i) && i < |all|
    ensures groups[|kept|] == all[i] && all[i] !in kept && all[i] !in all[i + 1..]
    ensures InLoop(groups, kept + [all[i]], all, i + 1)
    ensures InLoop(groups[..|kept|] + groups[|kept| + 1..], kept, all, i + 1)
  {
    assert groups == kept + [all[i]] + all[i + 1..];
    assert groups[..|kept|] == kept && groups[|kept| + 1..] == all[i + 1..];
    var shorter := kept + all[i + 1..];
    assert forall k :: 0 <= k < |shorter| ==> shorter[k] == groups[if k < |kept| then k else k + 1];
    assert forall k :: i + 1 <= k < |all| ==> groups[|kept| + k - i] == all[k];
  }

  /** The names that are registered; blank ones are ignored. */
  function Lookup(names: seq<string>): set<string> {
    set name | name in names && !IsBlank(name)
  }

  /** The outcome of one loop body: the entity is gone, or it has the contents that are left. */
  ghost predicate Edited(left: Option<Group>, entity: GroupEntity, repository: Repository, before: seq<GroupEntity>, at: nat)
    requires at < |before|
    reads entity, repository
  {
    match left
    case None => repository.groups == before[..at] + before[at + 1..]
    case Some(group) => repository.groups == before && Contents(entity) == group
  }

  /** The repository has the entities kept so far and those still to come. */
  ghost predicate InLoop(groups: seq<GroupEntity>, kept: seq<GroupEntity>, all: seq<GroupEntity>, i: nat) {
    && i <= |all| && groups == kept + all[i..] && Distinct(groups)
    && forall k :: 0 <= k < |kept| ==> kept[k] in all
  }

  ghost predicate Collected(kept: seq<GroupEntity>, before: seq<Group>, i: nat, f: Group -> Option<Group>)
    requires i <= |before|
    reads kept
  {
    View(kept) == Collect(before[..i], f)
  }

  ghost predicate Untouched(all: seq<GroupEntity>, before: seq<Group>, i: nat)
    requires |all| == |before|
    reads all
  {
    forall k :: i <= k < |all| ==> Contents(all[k]) == before[k]
  }

  /** The state of a loop over all groups that replaces each by what f leaves of it. */
  ghost predicate LoopInv(repository: Repository, kept: seq<GroupEntity>, all: seq<GroupEntity>, before: seq<Group>, i: nat,
                          f: Group -> Option<Group>)
    reads repository, all, kept
  {
    && i <= |all| == |before|
    && InLoop(repository.groups, kept, all, i) && Untouched(all, before, i) && Collected(kept, before, i, f)
  }

  lemma LoopStarts(repository: Repository, all: seq<GroupEntity>, f: Group -> Option<Group>)
    requires repository.groups == all && Distinct(all)
    ensures LoopInv(repository, [], all, View(all), 0, f)
  {
  }

  lemma LoopEnds(repository: Repository, kept: seq<GroupEntity>, all: seq<GroupEntity>, before: seq<Group>, f: Group -> Option<Group>)
    requires LoopInv(repository, kept, all, before, |all|, f)
    ensures View(repository.groups) == Collect(before, f) && Distinct(repository.groups)
  {
    assert before[..|all|] == before;
    assert repository.groups == kept;
  }

  lemma NextCollected(groups: seq<Group>, i: nat, f: Group -> Option<Group>, left: Option<Group>)
    requires i < |groups| && f(groups[i]) == left
    ensures Collect(groups[..i + 1], f) == Collect(groups[..i], f) + ToList(left)
  {
    CollectStep(groups, i, f);
  }

  lemma {:induction false} FilterLength<T>(s: seq<T>, p: T -> bool)
    ensures |Filter(s, p)| == |s| <==> Filter(s, p) == s
  {
    if s != [] {
      FilterLength(s[..|s| - 1], p);
      assert s == s[..|s| - 1] + [s[|s| - 1]];
    }
  }
}
