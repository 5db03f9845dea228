/**
 What the import of a scenario file means: when a document is acceptable, which resources and library agents it
 reuses or adds, and which scenario agents it creates. Names are ASCII and already stripped; the field values have
 passed the wizard's conversions.
 */
module ScenarioImportSpec {
  import opened Wrappers
  import opened LibraryNames

  datatype EnergyType = RENEWABLE | FOSSIL | NUCLEAR
  datatype AgentType = Only(energy: EnergyType) | HYBRID

  datatype Resource = Resource(name: string, energy: EnergyType, costs: seq<real>)

  datatype Fields = Fields(kind: AgentType, budget: real, algorithm: string, failstackEnabled: bool, failstackLimit: int,
                           failstackDelta: real, failstackMinMargin: real, params: map<string, string>)

  datatype Plant = Plant(resource: nat, capacity: int)

  datatype Agent = Agent(name: string, market: Option<nat>, fields: Fields, plants: seq<Plant>, source: Option<nat>)

  type Resources = seq<Resource>
  type Agents = seq<Agent>

  // ---------------------------------------------------------------- the document

  datatype FilePlant = FilePlant(resource: string, capacity: int)

  /** accepted: the verdict of the wizard and of the algorithm registry on the single fields and parameters. */
  datatype FileAgent = FileAgent(name: string, library: string, fields: Fields, plants: seq<FilePlant>, accepted: bool)

  /**
   headerOk: the verdict of the wizard on the scenario, its market and its run settings; resourceAccepted: the verdict
   on the energy type and the cost values of each resource entry.
   */
  datatype Document = Document(headerOk: bool, resources: Resources, resourceAccepted: nat -> bool,
                               agents: seq<FileAgent>)

  // ---------------------------------------------------------------- lookups

  /** The resource with the lowest id among those with this name in any case. */
  function FindResource(rs: Resources, name: string): (r: Option<nat>)
    ensures r.Some? ==> r.value < |rs| && Lower(rs[r.value].name) == Lower(name)
    ensures r.None? ==> forall i :: 0 <= i < |rs| ==> Lower(rs[i].name) != Lower(name)
  {
    if rs == [] then None
    else
      var n := |rs| - 1;
      var before := FindResource(rs[..n], name);
      if before.Some? then before else if Lower(rs[n].name) == Lower(name) then Some(n) else None
  }

  predicate IsLibrary(a: Agent, name: string) {
    a.market.None? && Lower(a.name) == Lower(name)
  }

  /** The library agent with the lowest id among those with this name in any case. */
  function FindLibrary(agents: Agents, name: string): (r: Option<nat>)
    ensures r.Some? ==> r.value < |agents| && IsLibrary(agents[r.value], name)
    ensures r.None? ==> forall i :: 0 <= i < |agents| ==> !IsLibrary(agents[i], name)
  {
    if agents == [] then None
    else
      var n := |agents| - 1;
      var before := FindLibrary(agents[..n], name);
      if before.Some? then before else if IsLibrary(agents[n], name) then Some(n) else None
  }

  lemma FindResourceAppend(rs: Resources, r: Resource, name: string)
    ensures FindResource(rs + [r], name)
         == if FindResource(rs, name).Some? then FindResource(rs, name)
            else if Lower(r.name) == Lower(name) then Some(|rs|) else None
  {
    assert (rs + [r])[..|rs|] == rs;
  }

  lemma FindLibraryAppend(agents: Agents, a: Agent, name: string)
    ensures FindLibrary(agents + [a], name)
         == if FindLibrary(agents, name).Some? then FindLibrary(agents, name)
            else if IsLibrary(a, name) then Some(|agents|) else None
  {
    assert (agents + [a])[..|agents|] == agents;
  }

  // ---------------------------------------------------------------- library names of the file agents

  /** The configuration as the file states it; plants are compared by lower-cased resource name, in any order. */
  datatype Key = Key(fields: Fields, plants: multiset<FilePlant>)

  function LowerPlants(ps: seq<FilePlant>): seq<FilePlant> {
    seq(|ps|, i requires 0 <= i < |ps| => FilePlant(Lower(ps[i].resource), ps[i].capacity))
  }

  function KeyOf(a: FileAgent): Key {
    Key(a.fields, multiset(LowerPlants(a.plants)))
  }

  /** The first configuration seen under each library name, after the first n agents. */
  function FirstKeys(agents: seq<FileAgent>, n: nat): map<string, Key>
    requires n <= |agents|
    decreases n, 1
  {
    if n == 0 then map[]
    else
      var m, k := FirstKeys(agents, n - 1), Lower(LibName(agents, n - 1));
      if k in m then m else m[k := KeyOf(agents[n - 1])]
  }

  /**
   The library name under which agent i is matched: its own scenario name if the library name already stands for
   another configuration.
   */
  function LibName(agents: seq<FileAgent>, i: nat): string
    requires i < |agents|
    decreases i, 2
  {
    LibNameGiven(FirstKeys(agents, i), agents[i])
  }

  function LibNameGiven(first: map<string, Key>, a: FileAgent): string {
    var k := Lower(a.library);
    if k in first && first[k] != KeyOf(a) then a.name else a.library
  }

  /** Agent k is matched under this name, in any case. */
  predicate Under(agents: seq<FileAgent>, k: nat, name: string) {
    k < |agents| && Lower(LibName(agents, k)) == Lower(name)
  }

  /** Agent j is the first of the agents before i that is matched under this name. */
  ghost predicate FirstUnder(agents: seq<FileAgent>, i: nat, name: string, j: nat) {
    j < i && Under(agents, j, name) && forall k: nat :: k < j ==> !Under(agents, k, name)
  }

  /** The dictionary of first configurations, name by name. */
  lemma {:induction false} FirstKeysAre(agents: seq<FileAgent>, i: nat, name: string)
    requires i <= |agents|
    ensures Lower(name) !in FirstKeys(agents, i) <==> forall k: nat :: k < i ==> !Under(agents, k, name)
    ensures forall j: nat :: FirstUnder(agents, i, name, j) ==>
              Lower(name) in FirstKeys(agents, i) && FirstKeys(agents, i)[Lower(name)] == KeyOf(agents[j])
  {
    hide Lower, KeyOf, LibName;
    if i > 0 {
      var last: nat := i - 1;
      FirstKeysAre(agents, last, name);
      forall j: nat | FirstUnder(agents, i, name, j)
        ensures Lower(name) in FirstKeys(agents, i) && FirstKeys(agents, i)[Lower(name)] == KeyOf(agents[j])
      {
        if j < last {
          assert FirstUnder(agents, last, name, j);
        }
      }
    }
  }

  /**
   An agent is matched under its library name, unless the first earlier agent matched under that name has another
   configuration: then under its own name.
   */
  lemma LibNameIs(agents: seq<FileAgent>, i: nat)
    requires i < |agents|
    ensures LibName(agents, i) == agents[i].library || LibName(agents, i) == agents[i].name
    ensures (forall j: nat :: j < i ==> !Under(agents, j, agents[i].library)) ==> LibName(agents, i) == agents[i].library
    ensures forall j: nat :: FirstUnder(agents, i, agents[i].library, j) ==>
              LibName(agents, i) == if KeyOf(agents[j]) == KeyOf(agents[i]) then agents[i].library else agents[i].name
  {
    hide Lower, KeyOf;
    FirstKeysAre(agents, i, agents[i].library);
  }

  /** Two file agents have the same configuration exactly when their fields and plants agree, order and case aside. */
  lemma SameKey(a: FileAgent, b: FileAgent)
    ensures KeyOf(a) == KeyOf(b) <==>
            a.fields == b.fields && multiset(LowerPlants(a.plants)) == multiset(LowerPlants(b.plants))
    ensures |LowerPlants(a.plants)| == |a.plants|
    ensures forall k :: 0 <= k < |a.plants| ==>
              LowerPlants(a.plants)[k] == FilePlant(Lower(a.plants[k].resource), a.plants[k].capacity)
  {
  }

  // ---------------------------------------------------------------- acceptable documents

  predicate Allowed(kind: AgentType, energy: EnergyType) {
    kind.HYBRID? || kind.energy == energy
  }

  /** The plant's resource is listed, its energy type allowed and its capacity positive. */
  predicate PlantOk(rs: Resources, kind: AgentType, p: FilePlant) {
    p.capacity > 0 && FindResource(rs, p.resource).Some?
    && Allowed(kind, rs[FindResource(rs, p.resource).value].energy)
  }

  const RESOURCE_NAME_MAX_LENGTH: nat := 20

  predicate NameOk(name: string) { 1 <= |name| <= NAME_MAX_LENGTH }

  predicate EntryOk(rs: Resources, a: FileAgent) {
    && NameOk(a.name) && NameOk(a.library) && a.accepted && a.plants != []
    && a.fields.failstackLimit >= 1 && a.fields.failstackDelta >= 0.0
    && forall i :: 0 <= i < |a.plants| ==> PlantOk(rs, a.fields.kind, a.plants[i])
  }

  /** Resource k is the first one of this name. */
  predicate NamedFirst(rs: Resources, name: string, k: nat) {
    k < |rs| && Lower(rs[k].name) == Lower(name) && forall l :: 0 <= l < k ==> Lower(rs[l].name) != Lower(name)
  }

  /** A plant of at least 1 MW of a listed resource; other agents than hybrid ones own only their own energy type. */
  predicate Ownable(rs: Resources, kind: AgentType, p: FilePlant) {
    p.capacity >= 1
    && exists k :: 0 <= k < |rs| && NamedFirst(rs, p.resource, k) && kind in {HYBRID, Only(rs[k].energy)}
  }

  /** The rules of an entry, spelled out. */
  lemma EntryRules(rs: Resources, a: FileAgent)
    ensures EntryOk(rs, a) <==>
            && a.accepted && a.name != "" && |a.name| <= 20 && a.library != "" && |a.library| <= 20
            && a.plants != [] && a.fields.failstackLimit > 0 && !(a.fields.failstackDelta < 0.0)
            && forall i :: 0 <= i < |a.plants| ==> Ownable(rs, a.fields.kind, a.plants[i])
  {
    hide Lower, FindResource;
    forall i | 0 <= i < |a.plants|
      ensures PlantOk(rs, a.fields.kind, a.plants[i]) <==> Ownable(rs, a.fields.kind, a.plants[i])
    {
      PlantRules(rs, a.fields.kind, a.plants[i]);
    }
    hide PlantOk, Ownable;
  }

  lemma PlantRules(rs: Resources, kind: AgentType, p: FilePlant)
    ensures PlantOk(rs, kind, p) <==> Ownable(rs, kind, p)
  {
    hide Lower, NamedFirst;
    FoundFirst(rs, p.resource);
    if FindResource(rs, p.resource).Some? {
      assert NamedFirst(rs, p.resource, FindResource(rs, p.resource).value);
    }
  }

  /** The lookup finds the first resource of the name. */
  lemma {:induction false} FoundFirst(rs: Resources, name: string)
    ensures forall k: nat :: FindResource(rs, name) == Some(k) <==> NamedFirst(rs, name, k)
  {
    hide Lower;
    if rs != [] {
      FoundFirst(rs[..|rs| - 1], name);
    }
  }

  predicate SameValues(a: Resource, b: Resource) {
    a.energy == b.energy && a.costs == b.costs
  }

  /** A resource that exists already must have the file's values. */
  predicate ResourceFits(rs: Resources, r: Resource) {
    FindResource(rs, r.name).Some? ==> SameValues(rs[FindResource(rs, r.name).value], r)
  }

  predicate ResourceOk(stored: Resources, rs: Resources, i: nat)
    requires i < |rs|
  {
    && 1 <= |rs[i].name| <= RESOURCE_NAME_MAX_LENGTH && ResourceFits(stored, rs[i])
    && forall j :: 0 <= j < i ==> Lower(rs[j].name) != Lower(rs[i].name)
  }

  /** A plant of the file with the id of its resource, None while that does not exist. */
  datatype IdPlant = IdPlant(id: Option<nat>, capacity: int)

  function FileIds(stored: Resources, ps: seq<FilePlant>): seq<IdPlant> {
    seq(|ps|, i requires 0 <= i < |ps| => IdPlant(FindResource(stored, ps[i].resource), ps[i].capacity))
  }

  function StoredIds(ps: seq<Plant>): seq<IdPlant> {
    seq(|ps|, i requires 0 <= i < |ps| => IdPlant(Some(ps[i].resource), ps[i].capacity))
  }

  /** No difference between a file agent and a stored one, names aside. */
  predicate SameConfig(stored: Resources, a: FileAgent, b: Agent) {
    a.fields == b.fields && multiset(FileIds(stored, a.plants)) == multiset(StoredIds(b.plants))
  }

  predicate LibraryFits(stored: Resources, agents: Agents, a: FileAgent, libName: string) {
    FindLibrary(agents, libName).Some? ==> SameConfig(stored, a, agents[FindLibrary(agents, libName).value])
  }

  /** Agents matched under the same library name have the same configuration. */
  ghost predicate SharingOk(agents: seq<FileAgent>) {
    forall i, j :: 0 <= i < |agents| && 0 <= j < |agents| && Lower(LibName(agents, i)) == Lower(LibName(agents, j)) ==>
      KeyOf(agents[i]) == KeyOf(agents[j])
  }

  ghost predicate NamesDiffer(agents: seq<FileAgent>) {
    forall i, j :: 0 <= i < j < |agents| ==> Lower(agents[i].name) != Lower(agents[j].name)
  }

  ghost predicate Acceptable(rs: Resources, agents: Agents, doc: Document) {
    && doc.headerOk && (forall i :: 0 <= i < |doc.resources| ==> doc.resourceAccepted(i))
    && (forall i :: 0 <= i < |doc.resources| ==> ResourceOk(rs, doc.resources, i))
    && (forall i :: 0 <= i < |doc.agents| ==> EntryOk(doc.resources, doc.agents[i]))
    && NamesDiffer(doc.agents) && SharingOk(doc.agents)
    && forall i :: 0 <= i < |doc.agents| ==> LibraryFits(rs, agents, doc.agents[i], LibName(doc.agents, i))
  }

  // ---------------------------------------------------------------- what an import adds

  /** The stored resources after the first n of the file: those that did not exist are added. */
  function ResourcesAfter(rs: Resources, file: Resources, n: nat): Resources
    requires n <= |file|
  {
    if n == 0 then rs
    else
      var before := ResourcesAfter(rs, file, n - 1);
      if FindResource(before, file[n - 1].name).Some? then before else before + [file[n - 1]]
  }

  predicate Listed(file: Resources, n: nat, name: string)
    requires n <= |file|
  {
    exists k :: 0 <= k < n && Lower(file[k].name) == Lower(name)
  }

  lemma ListedStep(file: Resources, n: nat, name: string)
    requires 1 <= n <= |file|
    ensures Listed(file, n, name) <==> Listed(file, n - 1, name) || Lower(file[n - 1].name) == Lower(name)
  {
    hide Lower;
  }

  lemma {:induction false} ResourcesPrefix(rs: Resources, file: Resources, n: nat)
    requires n <= |file|
    ensures rs <= ResourcesAfter(rs, file, n)
  {
    hide FindResource;
    if n > 0 {
      ResourcesPrefix(rs, file, n - 1);
    }
  }

  /** A lookup after the import finds what it found before, or a resource that the file lists. */
  lemma {:induction false} ResourcesFound(rs: Resources, file: Resources, n: nat, name: string)
    requires n <= |file|
    ensures var after := ResourcesAfter(rs, file, n);
            && (FindResource(rs, name).Some? ==> FindResource(after, name) == FindResource(rs, name))
            && (FindResource(rs, name).None? ==> (FindResource(after, name).Some? <==> Listed(file, n, name)))
  {
    hide Lower, FindResource, Listed;
    if n > 0 {
      ResourcesFound(rs, file, n - 1, name);
      ResourcesFound(rs, file, n - 1, file[n - 1].name);
      FindResourceAppend(ResourcesAfter(rs, file, n - 1), file[n - 1], name);
      ListedStep(file, n, name);
      if Lower(file[n - 1].name) == Lower(name) {
        SameLookup(ResourcesAfter(rs, file, n - 1), name, file[n - 1].name);
      }
    } else {
      assert !Listed(file, 0, name) by { NoneListed(file, name); }
    }
  }

  lemma NoneListed(file: Resources, name: string)
    ensures !Listed(file, 0, name)
  {
  }

  lemma {:induction false} SameLookup(rs: Resources, a: string, b: string)
    requires Lower(a) == Lower(b)
    ensures FindResource(rs, a) == FindResource(rs, b)
  {
    if rs != [] {
      SameLookup(rs[..|rs| - 1], a, b);
    }
  }

  /** Every resource of the file is there afterwards, with the file's values. */
  lemma {:induction false} ResourcesServed(rs: Resources, file: Resources, n: nat, i: nat)
    requires i < n <= |file| && forall k :: 0 <= k < n ==> ResourceOk(rs, file, k)
    ensures var after := ResourcesAfter(rs, file, n);
            && FindResource(after, file[i].name).Some?
            && var r := after[FindResource(after, file[i].name).value];
               r.energy == file[i].energy && r.costs == file[i].costs
  {
    hide Lower, FindResource;
    var before := ResourcesAfter(rs, file, n - 1);
    FindResourceAppend(before, file[n - 1], file[i].name);
    if i < n - 1 {
      ResourcesServed(rs, file, n - 1, i);
    } else {
      ResourcesFound(rs, file, n - 1, file[i].name);
      ResourcesPrefix(rs, file, n - 1);
      assert ResourceOk(rs, file, i);
    }
  }

  /** With every resource of the file present, the file adds none. */
  lemma {:induction false} ResourcesSettled(rs: Resources, file: Resources, n: nat)
    requires n <= |file| && forall i :: 0 <= i < n ==> FindResource(rs, file[i].name).Some?
    ensures ResourcesAfter(rs, file, n) == rs
  {
    hide FindResource, Lower;
    if n > 0 {
      ResourcesSettled(rs, file, n - 1);
    }
  }

  // ---------------------------------------------------------------- plants

  function Resolve(rs: Resources, p: FilePlant): IdPlant {
    IdPlant(FindResource(rs, p.resource), p.capacity)
  }

  lemma WithoutOne<T>(t: seq<T>, k: nat)
    requires k < |t|
    ensures multiset(t) == multiset(t[..k] + t[k + 1..]) + multiset{t[k]}
  {
    assert t == t[..k] + [t[k]] + t[k + 1..];
  }

  lemma Cancel<T>(a: multiset<T>, b: multiset<T>, x: T)
    requires a + multiset{x} == b + multiset{x}
    ensures a == b
  {
    assert a == a + multiset{x} - multiset{x};
    assert b == b + multiset{x} - multiset{x};
  }

  /** Resolving all but one plant, in any order, and that one last. */
  lemma ResolveWithoutOne(rs: Resources, t: seq<FilePlant>, k: nat)
    requires k < |t|
    ensures multiset(FileIds(rs, t)) == multiset(FileIds(rs, t[..k] + t[k + 1..])) + multiset{Resolve(rs, t[k])}
  {
    hide FindResource;
    WithoutOne(FileIds(rs, t), k);
    assert FileIds(rs, t)[..k] + FileIds(rs, t)[k + 1..] == FileIds(rs, t[..k] + t[k + 1..]);
  }

  lemma {:induction false} ResolveMultiset(rs: Resources, s: seq<FilePlant>, t: seq<FilePlant>)
    requires multiset(s) == multiset(t)
    ensures multiset(FileIds(rs, s)) == multiset(FileIds(rs, t))
    decreases |s|
  {
    hide FileIds;
    if s == [] {
      assert |multiset(t)| == 0;
      assert s == t;
    } else {
      assert s[0] in multiset(t);
      var k :| 0 <= k < |t| && t[k] == s[0];
      WithoutOne(s, 0);
      WithoutOne(t, k);
      Cancel(multiset(s[..0] + s[1..]), multiset(t[..k] + t[k + 1..]), s[0]);
      ResolveMultiset(rs, s[..0] + s[1..], t[..k] + t[k + 1..]);
      ResolveWithoutOne(rs, s, 0);
      ResolveWithoutOne(rs, t, k);
    }
  }

  /** A plant by the name of its resource. */
  function NameOf(rs: Resources, p: IdPlant): FilePlant {
    FilePlant(if p.id.Some? && p.id.value < |rs| then Lower(rs[p.id.value].name) else "", p.capacity)
  }

  function NamesOf(rs: Resources, ps: seq<IdPlant>): seq<FilePlant> {
    seq(|ps|, i requires 0 <= i < |ps| => NameOf(rs, ps[i]))
  }

  lemma NameWithoutOne(rs: Resources, t: seq<IdPlant>, k: nat)
    requires k < |t|
    ensures multiset(NamesOf(rs, t)) == multiset(NamesOf(rs, t[..k] + t[k + 1..])) + multiset{NameOf(rs, t[k])}
  {
    hide NameOf;
    WithoutOne(NamesOf(rs, t), k);
    assert NamesOf(rs, t)[..k] + NamesOf(rs, t)[k + 1..] == NamesOf(rs, t[..k] + t[k + 1..]);
  }

  lemma {:induction false} NameMultiset(rs: Resources, s: seq<IdPlant>, t: seq<IdPlant>)
    requires multiset(s) == multiset(t)
    ensures multiset(NamesOf(rs, s)) == multiset(NamesOf(rs, t))
    decreases |s|
  {
    hide NamesOf;
    if s == [] {
      assert |multiset(t)| == 0;
      assert s == t;
    } else {
      assert s[0] in multiset(t);
      var k :| 0 <= k < |t| && t[k] == s[0];
      WithoutOne(s, 0);
      WithoutOne(t, k);
      Cancel(multiset(s[..0] + s[1..]), multiset(t[..k] + t[k + 1..]), s[0]);
      NameMultiset(rs, s[..0] + s[1..], t[..k] + t[k + 1..]);
      NameWithoutOne(rs, s, 0);
      NameWithoutOne(rs, t, k);
    }
  }

  /** The stored agent has the fields of the file agent, and plants of the same resource names and capacities. */
  predicate HasConfig(rs: Resources, a: FileAgent, b: Agent) {
    && b.fields == a.fields
    && (forall k :: 0 <= k < |b.plants| ==> b.plants[k].resource < |rs|)
    && multiset(seq(|b.plants|, k requires 0 <= k < |b.plants| && b.plants[k].resource < |rs| =>
                      FilePlant(Lower(rs[b.plants[k].resource].name), b.plants[k].capacity)))
       == multiset(seq(|a.plants|, k requires 0 <= k < |a.plants| =>
                       FilePlant(Lower(a.plants[k].resource), a.plants[k].capacity)))
  }

  /** Without a difference a stored agent has the file agent's configuration. */
  lemma SameConfigMeans(rs: Resources, a: FileAgent, b: Agent)
    requires (forall i :: 0 <= i < |a.plants| ==> FindResource(rs, a.plants[i].resource).Some?) && SameConfig(rs, a, b)
    ensures HasConfig(rs, a, b)
  {
    hide Lower;
    var fs, bs := FileIds(rs, a.plants), StoredIds(b.plants);
    forall k | 0 <= k < |b.plants|
      ensures b.plants[k].resource < |rs|
    {
      assert bs[k] in multiset(fs);
    }
    NameMultiset(rs, fs, bs);
    assert NamesOf(rs, fs) == seq(|a.plants|, k requires 0 <= k < |a.plants| =>
                                    FilePlant(Lower(a.plants[k].resource), a.plants[k].capacity));
    assert NamesOf(rs, bs) == seq(|b.plants|, k requires 0 <= k < |b.plants| && b.plants[k].resource < |rs| =>
                                    FilePlant(Lower(rs[b.plants[k].resource].name), b.plants[k].capacity));
  }

  lemma LowerTwice(s: string)
    ensures Lower(Lower(s)) == Lower(s)
  {
  }

  lemma FileIdsLower(rs: Resources, ps: seq<FilePlant>)
    ensures FileIds(rs, LowerPlants(ps)) == FileIds(rs, ps)
  {
    forall i | 0 <= i < |ps|
      ensures FindResource(rs, Lower(ps[i].resource)) == FindResource(rs, ps[i].resource)
    {
      LowerTwice(ps[i].resource);
      SameLookup(rs, Lower(ps[i].resource), ps[i].resource);
    }
  }

  /** Equal keys mean the same plants, whatever the resources are called in the file. */
  lemma SameKeySameIds(rs: Resources, a: FileAgent, b: FileAgent)
    requires KeyOf(a) == KeyOf(b)
    ensures a.fields == b.fields && multiset(FileIds(rs, a.plants)) == multiset(FileIds(rs, b.plants))
  {
    hide Lower, FindResource;
    ResolveMultiset(rs, LowerPlants(a.plants), LowerPlants(b.plants));
    FileIdsLower(rs, a.plants);
    FileIdsLower(rs, b.plants);
  }

  /** A configuration that matches a stored agent keeps matching when resources are added. */
  lemma SameConfigStays(rs: Resources, file: Resources, n: nat, a: FileAgent, b: Agent)
    requires n <= |file| && SameConfig(rs, a, b)
    ensures SameConfig(ResourcesAfter(rs, file, n), a, b)
  {
    hide Lower, FindResource;
    var rs' := ResourcesAfter(rs, file, n);
    forall i | 0 <= i < |a.plants|
      ensures FindResource(rs', a.plants[i].resource) == FindResource(rs, a.plants[i].resource)
    {
      assert FileIds(rs, a.plants)[i] in multiset(FileIds(rs, a.plants));
      assert FileIds(rs, a.plants)[i] in multiset(StoredIds(b.plants));
      assert FileIds(rs, a.plants)[i] in StoredIds(b.plants);
      ResourcesFound(rs, file, n, a.plants[i].resource);
    }
    assert FileIds(rs', a.plants) == FileIds(rs, a.plants);
  }

  // ---------------------------------------------------------------- library agents

  function IdOf(rs: Resources, name: string): nat {
    if FindResource(rs, name).Some? then FindResource(rs, name).value else 0
  }

  /** The plants with the ids of their resources, in file order. */
  function Plants(rs: Resources, ps: seq<FilePlant>): seq<Plant> {
    seq(|ps|, i requires 0 <= i < |ps| => Plant(IdOf(rs, ps[i].resource), ps[i].capacity))
  }

  function NewLibrary(rs: Resources, a: FileAgent, name: string): Agent {
    Agent(name, None, a.fields, Plants(rs, a.plants), None)
  }

  /** Every plant's resource exists. */
  predicate AllResolved(rs: Resources, a: FileAgent) {
    forall i :: 0 <= i < |a.plants| ==> FindResource(rs, a.plants[i].resource).Some?
  }

  lemma NewLibraryFits(rs: Resources, a: FileAgent, name: string)
    requires AllResolved(rs, a)
    ensures SameConfig(rs, a, NewLibrary(rs, a, name))
  {
    hide Lower, FindResource;
    assert StoredIds(Plants(rs, a.plants)) == FileIds(rs, a.plants);
  }

  /** The stored agents after the first n file agents: a library agent is added where none has the name. */
  function LibrariesAfter(rs: Resources, agents: Agents, file: seq<FileAgent>, n: nat): Agents
    requires n <= |file|
  {
    if n == 0 then agents
    else
      var before, name := LibrariesAfter(rs, agents, file, n - 1), LibName(file, n - 1);
      if FindLibrary(before, name).Some? then before else before + [NewLibrary(rs, file[n - 1], name)]
  }

  lemma {:induction false} SameLibrary(agents: Agents, a: string, b: string)
    requires Lower(a) == Lower(b)
    ensures FindLibrary(agents, a) == FindLibrary(agents, b)
  {
    if agents != [] {
      SameLibrary(agents[..|agents| - 1], a, b);
    }
  }

  lemma {:induction false} LibrariesPrefix(rs: Resources, agents: Agents, file: seq<FileAgent>, n: nat)
    requires n <= |file|
    ensures agents <= LibrariesAfter(rs, agents, file, n)
  {
    hide FindLibrary, LibName;
    if n > 0 {
      LibrariesPrefix(rs, agents, file, n - 1);
    }
  }

  /** Some agent among the first n is matched under this name. */
  ghost predicate Wanted(file: seq<FileAgent>, n: nat, name: string)
    requires n <= |file|
  {
    exists k :: 0 <= k < n && Lower(LibName(file, k)) == Lower(name)
  }

  lemma WantedStep(file: seq<FileAgent>, n: nat, name: string)
    requires 1 <= n <= |file|
    ensures Wanted(file, n, name) <==> Wanted(file, n - 1, name) || Lower(LibName(file, n - 1)) == Lower(name)
    ensures !Wanted(file, 0, name)
  {
    hide Lower, LibName;
  }

  /** What a lookup finds after n agents: what was there, or an added library agent of that name. */
  ghost predicate Found(rs: Resources, agents: Agents, file: seq<FileAgent>, n: nat, name: string)
    requires n <= |file|
  {
    var after := LibrariesAfter(rs, agents, file, n);
    && (FindLibrary(agents, name).Some? ==> FindLibrary(after, name) == FindLibrary(agents, name))
    && (FindLibrary(agents, name).None? ==> (FindLibrary(after, name).Some? <==> Wanted(file, n, name)))
    && (FindLibrary(agents, name).None? && FindLibrary(after, name).Some? ==>
          FindLibrary(after, name).value >= |agents|)
  }

  lemma {:induction false} LibrariesFound(rs: Resources, agents: Agents, file: seq<FileAgent>, n: nat, name: string)
    requires n <= |file|
    ensures Found(rs, agents, file, n, name)
  {
    hide Lower, FindLibrary, LibName, Wanted, NewLibrary;
    if n > 0 {
      var before, last := LibrariesAfter(rs, agents, file, n - 1), LibName(file, n - 1);
      LibrariesFound(rs, agents, file, n - 1, name);
      LibrariesPrefix(rs, agents, file, n - 1);
      FindLibraryAppend(before, NewLibrary(rs, file[n - 1], last), name);
      NewLibraryIs(rs, file[n - 1], last, name);
      WantedStep(file, n, name);
      if Lower(last) == Lower(name) {
        SameLibrary(before, name, last);
      }
    } else {
      assert !Wanted(file, 0, name) by { NoneWanted(file, name); }
    }
  }

  lemma NoneWanted(file: seq<FileAgent>, name: string)
    ensures !Wanted(file, 0, name)
  {
  }

  lemma NewLibraryIs(rs: Resources, a: FileAgent, last: string, name: string)
    ensures IsLibrary(NewLibrary(rs, a, last), name) <==> Lower(last) == Lower(name)
  {
  }

  /** The library agent of every file agent among the first n has the file's configuration. */
  lemma {:induction false} LibrariesServed(rs: Resources, agents: Agents, file: seq<FileAgent>, n: nat, i: nat)
    requires i < n <= |file| && SharingOk(file)
    requires forall k :: 0 <= k < n ==> LibraryFits(rs, agents, file[k], LibName(file, k))
    requires forall k :: 0 <= k < n ==> AllResolved(rs, file[k])
    ensures var after := LibrariesAfter(rs, agents, file, n);
            && FindLibrary(after, LibName(file, i)).Some?
            && SameConfig(rs, file[i], after[FindLibrary(after, LibName(file, i)).value])
    decreases n, 1
  {
    hide Lower, FindLibrary, FindResource, LibName, SameConfig, NewLibrary, AllResolved, SharingOk, KeyOf;
    var before, name := LibrariesAfter(rs, agents, file, n - 1), LibName(file, i);
    var added := NewLibrary(rs, file[n - 1], LibName(file, n - 1));
    FindLibraryAppend(before, added, name);
    NewLibraryIs(rs, file[n - 1], LibName(file, n - 1), name);
    if i < n - 1 {
      LibrariesServed(rs, agents, file, n - 1, i);
    } else if FindLibrary(before, name).Some? {
      LibrariesFound(rs, agents, file, n - 1, name);
      LibrariesPrefix(rs, agents, file, n - 1);
      if FindLibrary(agents, name).None? {
        SharedLibrary(rs, agents, file, n - 1, i);
      }
    } else {
      NewLibraryFits(rs, file[i], name);
    }
  }

  /** An agent that finds the library agent which an earlier file agent added has the same configuration. */
  lemma SharedLibrary(rs: Resources, agents: Agents, file: seq<FileAgent>, n: nat, i: nat)
    requires n <= i < |file| && SharingOk(file)
    requires forall k :: 0 <= k < n ==> LibraryFits(rs, agents, file[k], LibName(file, k))
    requires forall k :: 0 <= k < n ==> AllResolved(rs, file[k])
    requires var after := LibrariesAfter(rs, agents, file, n);
             FindLibrary(agents, LibName(file, i)).None? && FindLibrary(after, LibName(file, i)).Some?
    ensures var after := LibrariesAfter(rs, agents, file, n);
            SameConfig(rs, file[i], after[FindLibrary(after, LibName(file, i)).value])
    decreases n, 2
  {
    hide Lower, FindLibrary, FindResource, LibName, NewLibrary, AllResolved, LibraryFits, SharingOk, SameConfig, KeyOf;
    hide LibrariesAfter, Wanted;
    var after, name := LibrariesAfter(rs, agents, file, n), LibName(file, i);
    LibrariesFound(rs, agents, file, n, name);
    var k := WantedBy(file, n, name);
    LibrariesServed(rs, agents, file, n, k);
    SameLibrary(after, LibName(file, k), name);
    SharedKey(file, k, i);
    SameConfigShared(rs, file[k], file[i], after[FindLibrary(after, name).value]);
  }

  lemma WantedBy(file: seq<FileAgent>, n: nat, name: string) returns (k: nat)
    requires n <= |file| && Wanted(file, n, name)
    ensures k < n && Lower(LibName(file, k)) == Lower(name)
  {
    hide Lower, LibName;
    k :| 0 <= k < n && Lower(LibName(file, k)) == Lower(name);
  }

  lemma SharedKey(file: seq<FileAgent>, k: nat, i: nat)
    requires k < |file| && i < |file| && SharingOk(file) && Lower(LibName(file, k)) == Lower(LibName(file, i))
    ensures KeyOf(file[k]) == KeyOf(file[i])
  {
  }

  lemma SameConfigShared(rs: Resources, a: FileAgent, b: FileAgent, stored: Agent)
    requires KeyOf(a) == KeyOf(b) && SameConfig(rs, a, stored)
    ensures SameConfig(rs, b, stored)
  {
    SameKeySameIds(rs, a, b);
  }

  /** Of the added library agents no two have the same name, and none has a name that was taken. */
  lemma {:induction false} AddedDiffer(rs: Resources, agents: Agents, file: seq<FileAgent>, n: nat, a: nat, b: nat)
    requires n <= |file| && a < b < |LibrariesAfter(rs, agents, file, n)| && |agents| <= b
    ensures var after := LibrariesAfter(rs, agents, file, n);
            after[b].market.None? && (after[a].market.None? ==> Lower(after[a].name) != Lower(after[b].name))
  {
    hide Lower, LibName;
    LibrariesPrefix(rs, agents, file, n);
    if n > 0 {
      var before := LibrariesAfter(rs, agents, file, n - 1);
      if b < |before| {
        AddedDiffer(rs, agents, file, n - 1, a, b);
      }
    }
  }

  /** Every added library agent is wanted by the file. */
  lemma {:induction false} AddedIsWanted(rs: Resources, agents: Agents, file: seq<FileAgent>, n: nat, b: nat)
    requires n <= |file| && |agents| <= b < |LibrariesAfter(rs, agents, file, n)|
    ensures Wanted(file, n, LibrariesAfter(rs, agents, file, n)[b].name)
  {
    hide Lower, LibName, FindLibrary;
    if n > 0 {
      var before := LibrariesAfter(rs, agents, file, n - 1);
      WantedStep(file, n, LibrariesAfter(rs, agents, file, n)[b].name);
      if b < |before| {
        AddedIsWanted(rs, agents, file, n - 1, b);
      }
    }
  }

  /**
   One library agent is added per distinct unmatched library name: a name is among the added ones exactly when the file
   wants it and the library did not have it, and then exactly once.
   */
  lemma OneLibraryPerName(rs: Resources, agents: Agents, file: seq<FileAgent>, name: string)
    ensures var after := LibrariesAfter(rs, agents, file, |file|);
            (exists b :: |agents| <= b < |after| && IsLibrary(after[b], name)) <==>
            Wanted(file, |file|, name) && FindLibrary(agents, name).None?
    ensures var after := LibrariesAfter(rs, agents, file, |file|);
            forall a, b :: |agents| <= a < b < |after| && IsLibrary(after[a], name) ==> !IsLibrary(after[b], name)
  {
    hide Lower, LibName, Wanted;
    var n, after := |file|, LibrariesAfter(rs, agents, file, |file|);
    LibrariesPrefix(rs, agents, file, n);
    LibrariesFound(rs, agents, file, n, name);
    if b :| |agents| <= b < |after| && IsLibrary(after[b], name) {
      AddedIsWanted(rs, agents, file, n, b);
      WantedLower(file, n, after[b].name, name);
      if FindLibrary(agents, name).Some? {
        AddedDiffer(rs, agents, file, n, FindLibrary(agents, name).value, b);
      }
    }
    forall a, b | |agents| <= a < b < |after| && IsLibrary(after[a], name)
      ensures !IsLibrary(after[b], name)
    {
      AddedDiffer(rs, agents, file, n, a, b);
    }
  }

  lemma WantedLower(file: seq<FileAgent>, n: nat, a: string, b: string)
    requires n <= |file| && Wanted(file, n, a) && Lower(a) == Lower(b)
    ensures Wanted(file, n, b)
  {
    hide Lower, LibName;
  }

  /** With every wanted library agent present, the file adds none. */
  lemma {:induction false} LibrariesSettled(rs: Resources, agents: Agents, file: seq<FileAgent>, n: nat)
    requires n <= |file| && forall i :: 0 <= i < n ==> FindLibrary(agents, LibName(file, i)).Some?
    ensures LibrariesAfter(rs, agents, file, n) == agents
  {
    hide FindLibrary, LibName, NewLibrary;
    if n > 0 {
      LibrariesSettled(rs, agents, file, n - 1);
    }
  }

  // ---------------------------------------------------------------- scenario agents

  function LibraryIndex(agents: Agents, name: string): (i: nat)
    requires FindLibrary(agents, name).Some?
    ensures i < |agents|
  {
    FindLibrary(agents, name).value
  }

  /** A copy in a market; its source is the library agent, or the one that the copied agent comes from. */
  function CopyOf(agents: Agents, l: nat, market: nat, name: string): Agent
    requires l < |agents|
  {
    Agent(name, Some(market), agents[l].fields, agents[l].plants, if agents[l].market.None? then Some(l) else agents[l].source)
  }

  ghost predicate AllServed(agents: Agents, file: seq<FileAgent>) {
    forall i :: 0 <= i < |file| ==> FindLibrary(agents, LibName(file, i)).Some?
  }

  /** The stored agents after copying the library agents of the first n file agents into the market. */
  ghost function CopiesAfter(libs: Agents, file: seq<FileAgent>, market: nat, n: nat): (r: Agents)
    requires n <= |file| && AllServed(libs, file)
    ensures |r| == |libs| + n && libs <= r
  {
    if n == 0 then libs
    else
      CopiesAfter(libs, file, market, n - 1)
      + [CopyOf(libs, LibraryIndex(libs, LibName(file, n - 1)), market, file[n - 1].name)]
  }

  /** Copies are not library agents, so they change no lookup. */
  lemma {:induction false} CopiesKeepLookups(libs: Agents, file: seq<FileAgent>, market: nat, n: nat, name: string)
    requires n <= |file| && AllServed(libs, file)
    ensures FindLibrary(CopiesAfter(libs, file, market, n), name) == FindLibrary(libs, name)
  {
    hide FindLibrary, Lower, LibName;
    if n > 0 {
      CopiesKeepLookups(libs, file, market, n - 1, name);
      FindLibraryAppend(CopiesAfter(libs, file, market, n - 1),
                        CopyOf(libs, LibraryIndex(libs, LibName(file, n - 1)), market, file[n - 1].name), name);
    }
  }

  lemma {:induction false} CopyAt(libs: Agents, file: seq<FileAgent>, market: nat, n: nat, i: nat)
    requires i < n <= |file| && AllServed(libs, file)
    ensures CopiesAfter(libs, file, market, n)[|libs| + i]
         == CopyOf(libs, LibraryIndex(libs, LibName(file, i)), market, file[i].name)
  {
    hide FindLibrary, Lower, LibName, AllServed;
    if i < n - 1 {
      CopyAt(libs, file, market, n - 1, i);
    }
  }

  // ---------------------------------------------------------------- the import as a whole

  lemma EntriesResolved(rs: Resources, file: Resources, a: FileAgent)
    requires EntryOk(file, a)
    ensures AllResolved(ResourcesAfter(rs, file, |file|), a)
  {
    hide Lower, FindResource;
    forall i | 0 <= i < |a.plants|
      ensures FindResource(ResourcesAfter(rs, file, |file|), a.plants[i].resource).Some?
    {
      assert PlantOk(file, a.fields.kind, a.plants[i]);
      ListedIffFound(file, a.plants[i].resource);
      ResourcesFound(rs, file, |file|, a.plants[i].resource);
    }
  }

  lemma ListedIffFound(file: Resources, name: string)
    ensures FindResource(file, name).Some? <==> Listed(file, |file|, name)
  {
  }

  /** What makes the later steps of an accepted import possible. */
  lemma AcceptedIsServed(rs: Resources, agents: Agents, doc: Document)
    requires Acceptable(rs, agents, doc)
    ensures var rs' := ResourcesAfter(rs, doc.resources, |doc.resources|);
            var libs := LibrariesAfter(rs', agents, doc.agents, |doc.agents|);
            && AllServed(libs, doc.agents)
            && (forall i :: 0 <= i < |doc.agents| ==> AllResolved(rs', doc.agents[i]))
            && (forall i :: 0 <= i < |doc.agents| ==> LibraryFits(rs', agents, doc.agents[i], LibName(doc.agents, i)))
            && forall i :: 0 <= i < |doc.agents| ==> FitsIn(rs', libs, doc.agents, i)
  {
    hide Lower, FindLibrary, FindResource, LibName, EntryOk, ResourceOk, SameConfig, SharingOk, NamesDiffer, AllResolved;
    var rs', n := ResourcesAfter(rs, doc.resources, |doc.resources|), |doc.agents|;
    var libs := LibrariesAfter(rs', agents, doc.agents, n);
    forall i | 0 <= i < n
      ensures AllResolved(rs', doc.agents[i]) && LibraryFits(rs', agents, doc.agents[i], LibName(doc.agents, i))
    {
      EntriesResolved(rs, doc.resources, doc.agents[i]);
      assert LibraryFits(rs, agents, doc.agents[i], LibName(doc.agents, i));
      var l := FindLibrary(agents, LibName(doc.agents, i));
      if l.Some? {
        SameConfigStays(rs, doc.resources, |doc.resources|, doc.agents[i], agents[l.value]);
      }
    }
    forall i | 0 <= i < n
      ensures FindLibrary(libs, LibName(doc.agents, i)).Some? && FitsIn(rs', libs, doc.agents, i)
    {
      LibrariesServed(rs', agents, doc.agents, n, i);
    }
  }

  /** The library agent of file agent i has the file's configuration. */
  predicate FitsIn(rs: Resources, agents: Agents, file: seq<FileAgent>, i: nat)
    requires i < |file|
  {
    var l := FindLibrary(agents, LibName(file, i));
    l.Some? && SameConfig(rs, file[i], agents[l.value])
  }

  function FinalResources(rs: Resources, doc: Document): Resources {
    ResourcesAfter(rs, doc.resources, |doc.resources|)
  }

  function FinalLibraries(rs: Resources, agents: Agents, doc: Document): Agents {
    LibrariesAfter(FinalResources(rs, doc), agents, doc.agents, |doc.agents|)
  }

  ghost function FinalAgents(rs: Resources, agents: Agents, doc: Document, market: nat): Agents
    requires AllServed(FinalLibraries(rs, agents, doc), doc.agents)
  {
    CopiesAfter(FinalLibraries(rs, agents, doc), doc.agents, market, |doc.agents|)
  }

  /**
   Every file agent becomes one scenario agent with exactly the file's name and configuration, copied from a library
   agent that has this configuration too.
   */
  lemma ScenarioAgentsAreTheFiles(rs: Resources, agents: Agents, doc: Document, market: nat, i: nat)
    requires Acceptable(rs, agents, doc) && i < |doc.agents|
    ensures AllServed(FinalLibraries(rs, agents, doc), doc.agents)
    ensures var libs, all := FinalLibraries(rs, agents, doc), FinalAgents(rs, agents, doc, market);
            var a, l := all[|libs| + i], FindLibrary(all, LibName(doc.agents, i));
            && a.name == doc.agents[i].name && a.market == Some(market)
            && HasConfig(FinalResources(rs, doc), doc.agents[i], a)
            && l.Some? && a.source == l && all[l.value].market.None?
            && Lower(all[l.value].name) == Lower(LibName(doc.agents, i))
            && HasConfig(FinalResources(rs, doc), doc.agents[i], all[l.value])
  {
    hide Lower, FindLibrary, FindResource, LibName, Acceptable, ResourcesAfter;
    AcceptedIsServed(rs, agents, doc);
    var libs := FinalLibraries(rs, agents, doc);
    CopyAt(libs, doc.agents, market, |doc.agents|, i);
    CopiesKeepLookups(libs, doc.agents, market, |doc.agents|, LibName(doc.agents, i));
    assert FitsIn(FinalResources(rs, doc), libs, doc.agents, i);
    var all := FinalAgents(rs, agents, doc, market);
    SameConfigMeans(FinalResources(rs, doc), doc.agents[i], all[|libs| + i]);
    SameConfigMeans(FinalResources(rs, doc), doc.agents[i], all[FindLibrary(all, LibName(doc.agents, i)).value]);
  }

  /** Importing the same document again is accepted, and adds no resource and no library agent. */
  lemma Reimport(rs: Resources, agents: Agents, doc: Document, market: nat)
    requires Acceptable(rs, agents, doc)
    ensures AllServed(FinalLibraries(rs, agents, doc), doc.agents)
    ensures var rs', all := FinalResources(rs, doc), FinalAgents(rs, agents, doc, market);
            && Acceptable(rs', all, doc)
            && FinalResources(rs', doc) == rs' && FinalLibraries(rs', all, doc) == all
  {
    hide Lower, FindLibrary, FindResource, LibName, EntryOk, SameConfig, SharingOk, NamesDiffer, AllResolved, ResourcesAfter,
         LibrariesAfter, CopiesAfter;
    AcceptedIsServed(rs, agents, doc);
    var rs', libs := FinalResources(rs, doc), FinalLibraries(rs, agents, doc);
    var all := FinalAgents(rs, agents, doc, market);
    forall i | 0 <= i < |doc.resources|
      ensures ResourceOk(rs', doc.resources, i) && FindResource(rs', doc.resources[i].name).Some?
    {
      assert ResourceOk(rs, doc.resources, i);
      ResourcesServed(rs, doc.resources, |doc.resources|, i);
    }
    ResourcesSettled(rs', doc.resources, |doc.resources|);
    forall i | 0 <= i < |doc.agents|
      ensures LibraryFits(rs', all, doc.agents[i], LibName(doc.agents, i))
      ensures FindLibrary(all, LibName(doc.agents, i)).Some?
    {
      assert FitsIn(rs', libs, doc.agents, i);
      CopiesKeepLookups(libs, doc.agents, market, |doc.agents|, LibName(doc.agents, i));
    }
    LibrariesSettled(rs', all, doc.agents, |doc.agents|);
  }
}
