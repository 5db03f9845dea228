/**
 The migration that builds the agent library from the scenario agents
 (abmem/migrations/0008_agent_library_import.py). Rows are numbered by id; no row is deleted.
 */
module LibraryImport {
  import opened Wrappers
  import opened LibraryNames

  datatype Error = RuntimeError

  datatype Plant = Plant(resource: nat, capacity: real)

  /** Type, budget, algorithm and fail-stack fields. */
  datatype Settings = Settings(kind: nat, budget: real, algorithm: string, failstackEnabled: bool, failstackLimit: nat,
                               failstackDelta: real, failstackMinMargin: real)

  datatype Agent = Agent(name: string, market: Option<nat>, proxy: bool, settings: Settings, plants: seq<Plant>,
                         source: Option<nat>) {
    predicate InLibrary() { market.None? }
    predicate InScenario() { market.Some? && proxy }

    /** The configuration: two agents with the same plants in another order have the same one. */
    function KeyOf(): Key { Key(settings, multiset(plants)) }
  }

  datatype Key = Key(settings: Settings, plants: multiset<Plant>)

  type Agents = seq<Agent>
  type Names = map<string, nat>

  /** Two agents have the same configuration exactly when settings and plants agree, the order of the plants aside. */
  lemma SameKey(a: Agent, b: Agent)
    ensures a.KeyOf() == b.KeyOf() <==> a.settings == b.settings && multiset(a.plants) == multiset(b.plants)
  {
  }

  /** A market holds two agents with the same name, compared case-sensitively. */
  predicate HasDuplicates(agents: Agents) {
    exists i, j :: 0 <= i < j < |agents| && agents[i].market.Some? && agents[i].market == agents[j].market
                   && agents[i].name == agents[j].name
  }

  /** The dictionary holds exactly the library agents among the first n, each under its lower-cased name. */
  ghost predicate Registered(agents: Agents, names: Names, n: nat) {
    && n <= |agents|
    && (forall i :: 0 <= i < n && agents[i].InLibrary() ==>
          Lower(agents[i].name) in names && names[Lower(agents[i].name)] == i)
    && forall x :: x in names ==> names[x] < n && agents[names[x]].InLibrary() && Lower(agents[names[x]].name) == x
  }

  /** Library names are pairwise distinct, whatever their case. */
  ghost predicate DistinctNames(agents: Agents) {
    forall i, j :: 0 <= i < j < |agents| && agents[i].InLibrary() && agents[j].InLibrary() ==>
      Lower(agents[i].name) != Lower(agents[j].name)
  }

  lemma RegisteredIsDistinct(agents: Agents, names: Names)
    requires Registered(agents, names, |agents|)
    ensures DistinctNames(agents)
  {
    forall i, j | 0 <= i < j < |agents| && agents[i].InLibrary() && agents[j].InLibrary()
      ensures Lower(agents[i].name) != Lower(agents[j].name)
    {
      assert names[Lower(agents[i].name)] == i && names[Lower(agents[j].name)] == j;
    }
  }

  // ---------------------------------------------------------------- groups

  datatype Group = Group(key: Key, members: seq<nat>)

  /** The member with the lowest id. */
  function Template(g: Group): nat {
    if g.members == [] then 0 else g.members[0]
  }

  /** Where the group with this key stands, |groups| if nowhere. */
  function IndexOf(groups: seq<Group>, key: Key): (k: nat)
    ensures k <= |groups|
    ensures k < |groups| ==> groups[k].key == key
    ensures k == |groups| ==> forall i :: 0 <= i < |groups| ==> groups[i].key != key
    decreases |groups|
  {
    if groups == [] then 0 else if groups[0].key == key then 0 else 1 + IndexOf(groups[1..], key)
  }

  /** The scenario agents with this configuration among the first n, in id order. */
  function MembersOf(agents: Agents, key: Key, n: nat): (ms: seq<nat>)
    requires n <= |agents|
    ensures forall m: nat :: m in ms <==> m < n && agents[m].InScenario() && agents[m].KeyOf() == key
    ensures forall a, b :: 0 <= a < b < |ms| ==> ms[a] < ms[b]
  {
    if n == 0 then []
    else
      var before := MembersOf(agents, key, n - 1);
      assert forall a :: 0 <= a < |before| ==> before[a] in before;
      if agents[n - 1].InScenario() && agents[n - 1].KeyOf() == key then before + [n - 1] else before
  }

  ghost predicate DistinctKeys(groups: seq<Group>) {
    forall a, b :: 0 <= a < b < |groups| ==> groups[a].key != groups[b].key
  }

  /** One group per configuration, with all its scenario agents; groups are ordered by their lowest member. */
  ghost predicate Grouped(agents: Agents, groups: seq<Group>, n: nat) {
    && n <= |agents| && DistinctKeys(groups)
    && (forall g :: 0 <= g < |groups| ==> groups[g].members == MembersOf(agents, groups[g].key, n) != [])
    && (forall a, b :: 0 <= a < b < |groups| ==> Template(groups[a]) < Template(groups[b]))
    && forall i :: 0 <= i < n && agents[i].InScenario() ==> IndexOf(groups, agents[i].KeyOf()) < |groups|
  }

  /** setdefault(key, []).append(member). */
  function AddMember(groups: seq<Group>, key: Key, member: nat): seq<Group> {
    var k := IndexOf(groups, key);
    if k == |groups| then groups + [Group(key, [member])]
    else groups[k := Group(key, groups[k].members + [member])]
  }

  lemma {:induction false} NoMembers(agents: Agents, key: Key, n: nat)
    requires n <= |agents|
    requires forall i :: 0 <= i < n && agents[i].InScenario() ==> agents[i].KeyOf() != key
    ensures MembersOf(agents, key, n) == []
  {
    if n > 0 {
      NoMembers(agents, key, n - 1);
    }
  }

  lemma NewGroup(agents: Agents, groups: seq<Group>, n: nat, key: Key)
    requires Grouped(agents, groups, n) && IndexOf(groups, key) == |groups|
    ensures MembersOf(agents, key, n) == []
  {
    forall i | 0 <= i < n && agents[i].InScenario()
      ensures agents[i].KeyOf() != key
    {
      assert IndexOf(groups, agents[i].KeyOf()) < |groups|;
    }
    NoMembers(agents, key, n);
  }

  /** The groups after one more agent, position by position. */
  lemma AddMemberAt(agents: Agents, groups: seq<Group>, n: nat, g: nat)
    requires n < |agents| && Grouped(agents, groups, n) && agents[n].InScenario()
    requires g < |AddMember(groups, agents[n].KeyOf(), n)|
    ensures var groups' := AddMember(groups, agents[n].KeyOf(), n);
            && |groups| <= |groups'| <= |groups| + 1
            && groups'[g].key == (if g < |groups| then groups[g].key else agents[n].KeyOf())
            && groups'[g].members == MembersOf(agents, groups'[g].key, n + 1) != []
            && Template(groups'[g]) == (if g < |groups| then Template(groups[g]) else n)
            && (g < |groups| ==> Template(groups[g]) < n)
  {
    var key := agents[n].KeyOf();
    var k := IndexOf(groups, key);
    if k == |groups| {
      NewGroup(agents, groups, n, key);
    }
    if g < |groups| {
      assert groups[g].members[0] in groups[g].members;
      assert g != k ==> groups[g].key != key;
    }
  }

  lemma AddMemberDistinct(groups: seq<Group>, key: Key, n: nat)
    requires DistinctKeys(groups)
    ensures DistinctKeys(AddMember(groups, key, n))
    ensures IndexOf(AddMember(groups, key, n), key) < |AddMember(groups, key, n)|
  {
    var k, groups' := IndexOf(groups, key), AddMember(groups, key, n);
    assert groups'[k].key == key;
  }

  lemma AddMemberFinds(groups: seq<Group>, key: Key, n: nat, other: Key)
    requires IndexOf(groups, other) < |groups|
    ensures IndexOf(AddMember(groups, key, n), other) < |AddMember(groups, key, n)|
  {
    var j, groups' := IndexOf(groups, other), AddMember(groups, key, n);
    assert groups'[j].key == other;
  }

  lemma AddMemberOrder(agents: Agents, groups: seq<Group>, n: nat, a: nat, b: nat)
    requires n < |agents| && Grouped(agents, groups, n) && agents[n].InScenario()
    requires a < b < |AddMember(groups, agents[n].KeyOf(), n)|
    ensures Template(AddMember(groups, agents[n].KeyOf(), n)[a]) < Template(AddMember(groups, agents[n].KeyOf(), n)[b])
  {
    hide AddMember, MembersOf, Template, IndexOf;
    AddMemberAt(agents, groups, n, a);
    AddMemberAt(agents, groups, n, b);
  }

  lemma AddMemberKeeps(agents: Agents, groups: seq<Group>, n: nat)
    requires n < |agents| && Grouped(agents, groups, n) && agents[n].InScenario()
    ensures Grouped(agents, AddMember(groups, agents[n].KeyOf(), n), n + 1)
  {
    hide AddMember, MembersOf, Template, IndexOf, DistinctKeys;
    var key := agents[n].KeyOf();
    var groups' := AddMember(groups, key, n);
    AddMemberDistinct(groups, key, n);
    forall g | 0 <= g < |groups'|
      ensures groups'[g].members == MembersOf(agents, groups'[g].key, n + 1) != []
    {
      AddMemberAt(agents, groups, n, g);
    }
    forall a, b | 0 <= a < b < |groups'|
      ensures Template(groups'[a]) < Template(groups'[b])
    {
      AddMemberOrder(agents, groups, n, a, b);
    }
    forall i | 0 <= i < n + 1 && agents[i].InScenario()
      ensures IndexOf(groups', agents[i].KeyOf()) < |groups'|
    {
      if i < n {
        AddMemberFinds(groups, key, n, agents[i].KeyOf());
      }
    }
  }

  /** Groups the scenario agents by configuration, in the order of their ids. */
  method GroupAgents(agents: Agents) returns (groups: seq<Group>)
    ensures Grouped(agents, groups, |agents|)
  {
    groups := [];
    for i := 0 to |agents|
      invariant Grouped(agents, groups, i)
    {
      if agents[i].InScenario() {
        AddMemberKeeps(agents, groups, i);
        groups := AddMember(groups, agents[i].KeyOf(), i);
      }
    }
  }

  // ---------------------------------------------------------------- the import

  /** UPDATE ... SET source for the rows with these ids. */
  function WithSource(agents: Agents, members: seq<nat>, library: nat): (r: Agents)
    ensures |r| == |agents|
    ensures forall i :: 0 <= i < |agents| ==> r[i] == if i in members then agents[i].(source := Some(library)) else agents[i]
  {
    seq(|agents|, i requires 0 <= i < |agents| =>
      if i in members then agents[i].(source := Some(library)) else agents[i])
  }

  /** Same row up to the name of a library agent. */
  predicate SameButName(a: Agent, b: Agent) {
    b == a.(name := b.name) && (!a.InLibrary() ==> a == b)
  }

  /** The copy of a scenario agent that becomes a library agent. */
  function LibraryCopy(template: Agent, name: string): (a: Agent)
    ensures a.InLibrary() && a.KeyOf() == template.KeyOf()
  {
    Agent(name, None, true, template.settings, template.plants, None)
  }

  /** The members point at the library agent, which has their configuration. */
  ghost predicate Served(agents: Agents, g: Group, library: nat) {
    && library < |agents| && agents[library].InLibrary() && agents[library].KeyOf() == g.key
    && forall m :: m in g.members ==> m < |agents| && agents[m].source == Some(library)
  }

  /** Same row up to the source. */
  predicate SameButSource(a: Agent, b: Agent) {
    b == a.(source := b.source)
  }

  lemma NothingRegistered(agents: Agents)
    ensures Registered(agents, map[], 0)
  {
  }

  lemma SkipRow(agents: Agents, names: Names, i: nat)
    requires i < |agents| && !agents[i].InLibrary() && Registered(agents, names, i)
    ensures Registered(agents, names, i + 1)
  {
  }

  lemma NotYetRegistered(agents: Agents, names: Names, i: nat)
    requires i < |agents| && agents[i].InLibrary() && Registered(agents, names, i) && DistinctNames(agents)
    ensures Lower(agents[i].name) !in names
  {
  }

  lemma RegisterNext(agents: Agents, names: Names, i: nat, name: string)
    requires Registered(agents, names, i) && i < |agents| && agents[i].InLibrary() && Lower(name) !in names
    ensures Registered(agents[i := agents[i].(name := name)], names[Lower(name) := i], i + 1)
  {
    hide Lower;
  }

  lemma FirstIsFree(base: string, names: Names, k: nat)
    requires Lower(base) !in names && |base| <= NAME_MAX_LENGTH
    requires FirstUsable(base, names, h => false, k)
    ensures Candidate(base, k) == base
  {
    hide Lower, IncrementSuffix;
    assert Candidate(base, 0) == base;
  }

  ghost predicate IsCandidate(base: string, name: string) {
    exists k: nat :: name == Candidate(base, k)
  }

  predicate AllFit(agents: Agents) {
    forall i :: 0 <= i < |agents| ==> |agents[i].name| <= NAME_MAX_LENGTH
  }

  predicate Created(a: Agent) {
    a.InLibrary() && a.proxy && a.source.None?
  }

  /** The group's members are scenario agents with the group's configuration. */
  ghost predicate Pending(agents: Agents, g: Group) {
    && g.members != [] && g.members[0] < |agents|
    && forall m :: m in g.members ==> m < |agents| && agents[m].InScenario() && agents[m].KeyOf() == g.key
  }

  function HasKey(agents: Agents, key: Key): nat -> bool {
    (h: nat) => h < |agents| && agents[h].KeyOf() == key
  }

  ghost predicate NamedAt(agents: Agents, g: Group, names: Names, library: nat, name: string, k: nat) {
    && Pending(agents, g) && name == Candidate(agents[g.members[0]].name, k)
    && FirstUsable(agents[g.members[0]].name, names, HasKey(agents, g.key), k)
    && library == if Lower(name) in names then names[Lower(name)] else |agents|
  }

  /** The library agent of a group has the first usable candidate of the template's name; it is new if that is free. */
  ghost predicate Named(agents: Agents, g: Group, names: Names, library: nat, name: string) {
    exists k: nat :: NamedAt(agents, g, names, library, name, k)
  }

  /** The rows after one group: a new library agent if its id is new, and the members' sources. */
  function AfterGroup(agents: Agents, g: Group, library: nat, name: string): Agents
    requires g.members != [] && g.members[0] < |agents|
  {
    WithSource(if library == |agents| then agents + [LibraryCopy(agents[g.members[0]], name)] else agents, g.members, library)
  }

  /** What the groups imported so far have done to the rows. */
  ghost predicate Imported(before: Agents, groups: seq<Group>, agents: Agents, libraries: seq<nat>) {
    && |before| <= |agents| && |libraries| == |groups|
    && (forall i :: 0 <= i < |before| ==> SameButSource(before[i], agents[i]))
    && (forall i :: 0 <= i < |before| && !before[i].InScenario() ==> agents[i] == before[i])
    && (forall i :: |before| <= i < |agents| ==> Created(agents[i]) && i in libraries)
    && forall g :: 0 <= g < |groups| ==> Served(agents, groups[g], libraries[g])
  }

  lemma RegisterNew(agents: Agents, names: Names, a: Agent)
    requires Registered(agents, names, |agents|) && a.InLibrary() && Lower(a.name) !in names
    ensures Registered(agents + [a], names[Lower(a.name) := |agents|], |agents| + 1)
  {
    hide Lower;
  }

  lemma SourceKeepsRegistered(agents: Agents, names: Names, g: Group, library: nat)
    requires Registered(agents, names, |agents|)
    ensures Registered(WithSource(agents, g.members, library), names, |agents|)
  {
    hide Lower;
  }

  lemma NothingImported(before: Agents)
    ensures Imported(before, [], before, [])
  {
  }

  lemma MembersPending(agents: Agents, groups: seq<Group>, i: nat)
    requires Grouped(agents, groups, |agents|) && i < |groups|
    ensures Pending(agents, groups[i])
    ensures forall j, m :: 0 <= j < |groups| && j != i && m in groups[j].members ==> m !in groups[i].members
  {
    var g := groups[i];
    assert g.members[0] in g.members;
    forall j, m | 0 <= j < |groups| && j != i && m in groups[j].members
      ensures m !in groups[i].members
    {
      assert groups[j].key != groups[i].key;
    }
  }

  lemma StillPending(before: Agents, groups: seq<Group>, agents: Agents, libraries: seq<nat>, i: nat)
    requires Grouped(before, groups, |before|) && i < |groups| && Imported(before, groups[..i], agents, libraries)
    ensures Pending(agents, groups[i])
  {
    hide Grouped;
    MembersPending(before, groups, i);
  }

  lemma NextImported(before: Agents, groups: seq<Group>, agents: Agents, libraries: seq<nat>, i: nat, library: nat,
                     after: Agents, name: string)
    requires Grouped(before, groups, |before|) && i < |groups| && Imported(before, groups[..i], agents, libraries)
    requires Pending(agents, groups[i]) && after == AfterGroup(agents, groups[i], library, name)
    requires Served(after, groups[i], library)
    ensures Imported(before, groups[..i + 1], after, libraries + [library])
  {
    hide Grouped;
    MembersPending(before, groups, i);
    var libraries' := libraries + [library];
    forall g | 0 <= g < i + 1
      ensures Served(after, groups[..i + 1][g], libraries'[g])
    {
      if g < i {
        assert Served(agents, groups[..i][g], libraries[g]);
      }
    }
  }

  // ---------------------------------------------------------------- what the migration promises

  /** Every scenario agent's source is a library agent with its configuration; equal configurations share it. */
  ghost predicate SourcesExact(agents: Agents, n: nat)
    requires n <= |agents|
  {
    && (forall i :: 0 <= i < n && agents[i].market.Some? && agents[i].proxy ==>
          && agents[i].source.Some? && agents[i].source.value < |agents|
          && agents[agents[i].source.value].market.None? && agents[agents[i].source.value].KeyOf() == agents[i].KeyOf())
    && forall i, j ::
         0 <= i < j < n && agents[i].market.Some? && agents[i].proxy && agents[j].market.Some? && agents[j].proxy ==>
         (agents[i].source == agents[j].source <==> agents[i].KeyOf() == agents[j].KeyOf())
  }

  /** Only library names and scenario sources change; every new row is a library agent that some scenario agent needs. */
  ghost predicate RowsKept(before: Agents, agents: Agents) {
    && |before| <= |agents|
    && (forall i :: 0 <= i < |before| ==>
          && agents[i] == before[i].(name := agents[i].name, source := agents[i].source)
          && (!before[i].InLibrary() ==> agents[i].name == before[i].name)
          && (!before[i].InScenario() ==> agents[i].source == before[i].source))
    && forall i :: |before| <= i < |agents| ==> Created(agents[i]) && Needed(before, agents, i)
  }

  ghost predicate Needed(before: Agents, agents: Agents, library: nat)
    requires |before| <= |agents|
  {
    exists m :: 0 <= m < |before| && before[m].InScenario() && agents[m].source == Some(library)
  }

  lemma SourceOf(named: Agents, groups: seq<Group>, agents: Agents, libraries: seq<nat>, i: nat) returns (g: nat)
    requires Grouped(named, groups, |named|) && Imported(named, groups, agents, libraries)
    requires i < |named| && named[i].InScenario()
    ensures g < |groups| && groups[g].key == named[i].KeyOf() && agents[i].source == Some(libraries[g])
    ensures libraries[g] < |agents| && agents[libraries[g]].InLibrary() && agents[libraries[g]].KeyOf() == groups[g].key
    ensures agents[i].InScenario() && agents[i].KeyOf() == named[i].KeyOf()
  {
    g := IndexOf(groups, named[i].KeyOf());
    assert i in MembersOf(named, groups[g].key, |named|);
    assert Served(agents, groups[g], libraries[g]);
  }

  lemma SourcesAreExact(named: Agents, groups: seq<Group>, agents: Agents, libraries: seq<nat>)
    requires Grouped(named, groups, |named|) && Imported(named, groups, agents, libraries)
    ensures SourcesExact(agents, |named|)
  {
    hide Grouped, Imported;
    assert |named| <= |agents| && forall i :: 0 <= i < |named| ==> SameButSource(named[i], agents[i]) by {
      ImportedRows(named, groups, agents, libraries);
    }
    forall i | 0 <= i < |named| && agents[i].InScenario()
      ensures agents[i].source.Some? && agents[i].source.value < |agents|
      ensures agents[agents[i].source.value].InLibrary() && agents[agents[i].source.value].KeyOf() == agents[i].KeyOf()
    {
      var g := SourceOf(named, groups, agents, libraries, i);
    }
    forall i, j | 0 <= i < j < |named| && agents[i].InScenario() && agents[j].InScenario()
      ensures agents[i].source == agents[j].source <==> agents[i].KeyOf() == agents[j].KeyOf()
    {
      var g := SourceOf(named, groups, agents, libraries, i);
      var h := SourceOf(named, groups, agents, libraries, j);
      KeysDecide(named, groups, g, h);
    }
  }

  lemma ImportedRows(named: Agents, groups: seq<Group>, agents: Agents, libraries: seq<nat>)
    requires Imported(named, groups, agents, libraries)
    ensures |named| <= |agents| && forall i :: 0 <= i < |named| ==> SameButSource(named[i], agents[i])
  {
  }

  lemma KeysDecide(named: Agents, groups: seq<Group>, g: nat, h: nat)
    requires Grouped(named, groups, |named|) && g < |groups| && h < |groups|
    ensures g == h <==> groups[g].key == groups[h].key
  {
  }

  lemma CreatedIsNeeded(before: Agents, named: Agents, groups: seq<Group>, agents: Agents, libraries: seq<nat>, i: nat)
    requires |named| == |before| && forall k :: 0 <= k < |before| ==> SameButName(before[k], named[k])
    requires Grouped(named, groups, |named|) && Imported(named, groups, agents, libraries)
    requires |before| <= i < |agents|
    ensures Created(agents[i]) && Needed(before, agents, i)
  {
    assert i in libraries;
    var g :| 0 <= g < |libraries| && libraries[g] == i;
    var m := groups[g].members[0];
    assert m in groups[g].members;
    assert Served(agents, groups[g], libraries[g]);
    assert m < |named| && named[m].InScenario();
  }

  lemma RowsAreKept(before: Agents, named: Agents, groups: seq<Group>, agents: Agents, libraries: seq<nat>)
    requires |named| == |before| && forall i :: 0 <= i < |before| ==> SameButName(before[i], named[i])
    requires Grouped(named, groups, |named|) && Imported(named, groups, agents, libraries)
    ensures RowsKept(before, agents)
  {
    hide Grouped, Needed;
    forall i | |before| <= i < |agents|
      ensures Created(agents[i]) && Needed(before, agents, i)
    {
      CreatedIsNeeded(before, named, groups, agents, libraries, i);
    }
  }

  // ---------------------------------------------------------------- the database

  class Database {
    var agents: Agents

    constructor (agents: Agents)
      ensures this.agents == agents
    {
      this.agents := agents;
    }

    /** Gives every library agent a name that no library agent with a lower id has. */
    method ResolveNames() returns (names: Names)
      modifies this
      ensures Registered(agents, names, |agents|) && |agents| == |old(agents)|
      ensures forall i :: 0 <= i < |agents| ==> SameButName(old(agents)[i], agents[i])
      ensures forall i :: 0 <= i < |agents| && agents[i].InLibrary() ==> IsCandidate(old(agents)[i].name, agents[i].name)
      ensures DistinctNames(old(agents)) && AllFit(old(agents)) ==> agents == old(agents)
    {
      hide Lower, Candidate, DistinctNames, Registered, IsCandidate;
      names := map[];
      NothingRegistered(agents);
      for i := 0 to |agents|
        invariant |agents| == |old(agents)| && Registered(agents, names, i)
        invariant forall k :: 0 <= k < |agents| ==> SameButName(old(agents)[k], agents[k])
        invariant forall k :: i <= k < |agents| ==> agents[k] == old(agents)[k]
        invariant forall k :: 0 <= k < i && agents[k].InLibrary() ==> IsCandidate(old(agents)[k].name, agents[k].name)
        invariant DistinctNames(old(agents)) && AllFit(old(agents)) ==> agents == old(agents)
      {
        if agents[i].InLibrary() {
          if DistinctNames(agents) {
            NotYetRegistered(agents, names, i);
          }
          names := Rename(i, names);
        } else {
          SkipRow(agents, names, i);
        }
      }
    }

    /** The name of row i; a name that is already in use gets a suffix. */
    method Rename(i: nat, names: Names) returns (names': Names)
      requires i < |agents| && agents[i].InLibrary() && Registered(agents, names, i)
      modifies this
      ensures |agents| == |old(agents)| && SameButName(old(agents)[i], agents[i])
      ensures forall k :: 0 <= k < |agents| && k != i ==> agents[k] == old(agents)[k]
      ensures IsCandidate(old(agents)[i].name, agents[i].name)
      ensures Lower(old(agents)[i].name) !in names && |old(agents)[i].name| <= NAME_MAX_LENGTH ==> agents == old(agents)
      ensures Registered(agents, names', i + 1)
    {
      hide Lower, Candidate, IsSuffixed, Number, Stem, Pow10, Smaller;
      ghost var before := agents;
      var candidate, _, k := FreeName(agents[i].name, names, h => false);
      assert IsCandidate(before[i].name, candidate);
      if Lower(before[i].name) !in names && |before[i].name| <= NAME_MAX_LENGTH {
        FirstIsFree(before[i].name, names, k);
      }
      RegisterNext(before, names, i, candidate);
      if candidate != agents[i].name {
        agents := agents[i := agents[i].(name := candidate)];
      }
      names' := names[Lower(candidate) := i];
    }

    /**
     The library agent of one group: the first name that the search may use belongs to it already, or names a new copy
     of the template.
     */
    method ImportGroup(g: Group, names: Names) returns (names': Names, library: nat, ghost name: string)
      requires Registered(agents, names, |agents|) && Pending(agents, g)
      modifies this
      ensures Registered(agents, names', |agents|) && Served(agents, g, library)
      ensures agents == AfterGroup(old(agents), g, library, name)
      ensures Named(old(agents), g, names, library, name)
    {
      hide Lower, Candidate, IsSuffixed, Number, Stem, Pow10, Smaller;
      var template := agents[g.members[0]];
      var candidate, holder, k := FreeName(template.name, names, HasKey(agents, g.key));
      name := candidate;
      names' := names;
      if holder.Some? {
        library := holder.value;
      } else {
        library := |agents|;
        RegisterNew(agents, names, LibraryCopy(template, candidate));
        agents := agents + [LibraryCopy(template, candidate)];
        names' := names[Lower(candidate) := library];
      }
      SourceKeepsRegistered(agents, names', g, library);
      agents := WithSource(agents, g.members, library);
      assert NamedAt(old(agents), g, names, library, candidate, k);
    }

    /** Gives the members of every group their library agent, group by group. */
    method ImportGroups(groups: seq<Group>, names: Names) returns (ghost libraries: seq<nat>)
      requires Registered(agents, names, |agents|) && Grouped(agents, groups, |agents|)
      modifies this
      ensures Imported(old(agents), groups, agents, libraries)
      ensures DistinctNames(agents)
    {
      hide Grouped, Imported, Registered, Pending, AfterGroup, Named, Served, DistinctNames;
      ghost var before := agents;
      var taken := names;
      libraries := [];
      NothingImported(agents);
      for i := 0 to |groups|
        invariant Registered(agents, taken, |agents|) && Imported(before, groups[..i], agents, libraries)
      {
        StillPending(before, groups, agents, libraries, i);
        ghost var rows := agents;
        var library: nat;
        ghost var name: string;
        taken, library, name := ImportGroup(groups[i], taken);
        NextImported(before, groups, rows, libraries, i, library, agents, name);
        libraries := libraries + [library];
      }
      assert groups[..|groups|] == groups;
      RegisteredIsDistinct(agents, taken);
    }

    /** The migration: duplicate names inside a market stop it before anything is changed. */
    method ImportLibrary() returns (r: Result<(), Error>)
      modifies this
      ensures r.Ok? <==> !HasDuplicates(old(agents))
      ensures r.Err? ==> agents == old(agents)
      ensures r.Ok? ==>
                && RowsKept(old(agents), agents) && DistinctNames(agents)
                && SourcesExact(agents, |old(agents)|)
    {
      if HasDuplicates(agents) {
        return Err(RuntimeError);
      }
      hide Grouped, Imported, Registered, DistinctNames, HasDuplicates;
      ghost var before := agents;
      var names := ResolveNames();
      ghost var named := agents;
      var groups := GroupAgents(agents);
      ghost var libraries := ImportGroups(groups, names);
      RowsAreKept(before, named, groups, agents, libraries);
      SourcesAreExact(named, groups, agents, libraries);
      return Ok(());
    }
  }
}
