/**
 The two phases of a scenario import (abmem/scenario_yaml.py): a plan is built without writing anything and every
 problem of the document is collected; an accepted plan is then applied to the store.
 */
module ScenarioImport {
  import opened Wrappers
  import opened LibraryNames
  import opened ScenarioImportSpec

  datatype Problem =
    | BadHeader
    | BadResource(index: nat) | BadValues(index: nat) | DuplicateResource(index: nat) | ConflictingResource(index: nat)
    | BadAgent(index: nat) | DuplicateAgent(index: nat) | MixedLibrary(index: nat) | ConflictingLibrary(index: nat)

  datatype ImportError = ScenarioImportError(problems: seq<Problem>)

  datatype ServiceError = LibraryValidationError

  /** A resource of the file and the stored one it matches. */
  datatype ResourceSpec = ResourceSpec(resource: Resource, existing: Option<nat>)

  /** An agent of the file; plants refer to the plan's resources by position. */
  datatype AgentSpec = AgentSpec(index: nat, file: FileAgent, plants: seq<Plant>, libraryName: string, library: Option<nat>)

  datatype ImportPlan = ImportPlan(resources: seq<ResourceSpec>, agents: seq<AgentSpec>)

  function ResourcesOf(specs: seq<ResourceSpec>): Resources {
    seq(|specs|, i requires 0 <= i < |specs| => specs[i].resource)
  }

  function FilesOf(specs: seq<AgentSpec>): seq<FileAgent> {
    seq(|specs|, i requires 0 <= i < |specs| => specs[i].file)
  }

  // ---------------------------------------------------------------- resources

  ghost predicate ResourcesOk(stored: Resources, file: Resources, n: nat)
    requires n <= |file|
  {
    forall i :: 0 <= i < n ==> ResourceOk(stored, file, i)
  }

  predicate SpecsOf(stored: Resources, file: Resources, specs: seq<ResourceSpec>, n: nat)
    requires n <= |file|
  {
    |specs| == n && forall i :: 0 <= i < n ==> specs[i] == ResourceSpec(file[i], FindResource(stored, file[i].name))
  }

  ghost predicate SeenResources(file: Resources, n: nat, seen: set<string>)
    requires n <= |file|
  {
    forall x :: x in seen <==> exists j :: 0 <= j < n && file[j].name != [] && Lower(file[j].name) == x
  }

  lemma ResourceStep(stored: Resources, file: Resources, i: nat, seen: set<string>)
    requires i < |file| && ResourcesOk(stored, file, i) && SeenResources(file, i, seen)
    ensures ResourceOk(stored, file, i) <==>
            && 1 <= |file[i].name| <= RESOURCE_NAME_MAX_LENGTH && Lower(file[i].name) !in seen
            && ResourceFits(stored, file[i])
  {
    hide FindResource, Lower;
    forall j | 0 <= j < i
      ensures file[j].name != []
    {
      assert ResourceOk(stored, file, j);
    }
  }

  predicate NameFits(r: Resource) { 1 <= |r.name| <= RESOURCE_NAME_MAX_LENGTH }

  /** An earlier entry of the file has this name. */
  predicate Repeated(file: Resources, i: nat)
    requires i < |file|
  {
    exists j :: 0 <= j < i && file[j].name != [] && Lower(file[j].name) == Lower(file[i].name)
  }

  /** What is reported about the first n entries: every problem of every entry, and nothing else. */
  ghost predicate ResourceProblems(stored: Resources, file: Resources, accepted: nat -> bool, n: nat, problems: seq<Problem>)
    requires n <= |file|
  {
    forall p :: p in problems <==>
      match p
      case BadResource(i) => i < n && !NameFits(file[i])
      case DuplicateResource(i) => i < n && NameFits(file[i]) && Repeated(file, i)
      case BadValues(i) => i < n && !accepted(i)
      case ConflictingResource(i) =>
        i < n && NameFits(file[i]) && !Repeated(file, i) && accepted(i) && !ResourceFits(stored, file[i])
      case _ => false
  }

  /** Matches the resources of the file against the stored ones. */
  method ParseResources(stored: Resources, file: Resources, accepted: nat -> bool)
    returns (specs: seq<ResourceSpec>, problems: seq<Problem>)
    ensures problems == [] <==> ResourcesOk(stored, file, |file|) && forall i :: 0 <= i < |file| ==> accepted(i)
    ensures problems == [] ==> SpecsOf(stored, file, specs, |file|)
    ensures ResourceProblems(stored, file, accepted, |file|, problems)
  {
    hide FindResource, Lower, ResourceFits;
    specs, problems := [], [];
    var seen: set<string> := {};
    for i := 0 to |file|
      invariant SeenResources(file, i, seen)
      invariant problems == [] <==> ResourcesOk(stored, file, i) && forall k :: 0 <= k < i ==> accepted(k)
      invariant problems == [] ==> SpecsOf(stored, file, specs, i)
      invariant ResourceProblems(stored, file, accepted, i, problems)
    {
      var r := file[i];
      if ResourcesOk(stored, file, i) {
        ResourceStep(stored, file, i, seen);
      }
      var ok := true;
      if r.name == [] || |r.name| > RESOURCE_NAME_MAX_LENGTH {
        problems, ok := problems + [BadResource(i)], false;
      } else if Lower(r.name) in seen {
        problems, ok := problems + [DuplicateResource(i)], false;
      }
      if !accepted(i) {
        problems, ok := problems + [BadValues(i)], false;
      }
      if ok {
        if ResourceFits(stored, r) {
          specs := specs + [ResourceSpec(r, FindResource(stored, r.name))];
        } else {
          problems := problems + [ConflictingResource(i)];
        }
      }
      if r.name != [] {
        seen := seen + {Lower(r.name)};
      }
    }
  }

  // ---------------------------------------------------------------- agents

  ghost predicate AgentOk(rs: Resources, file: seq<FileAgent>, i: nat)
    requires i < |file|
  {
    EntryOk(rs, file[i]) && forall j :: 0 <= j < i ==> Lower(file[j].name) != Lower(file[i].name)
  }

  ghost predicate AgentsOk(rs: Resources, file: seq<FileAgent>, n: nat)
    requires n <= |file|
  {
    forall i :: 0 <= i < n ==> AgentOk(rs, file, i)
  }

  lemma AgentsOkMeans(rs: Resources, file: seq<FileAgent>)
    ensures AgentsOk(rs, file, |file|) <==> (forall i :: 0 <= i < |file| ==> EntryOk(rs, file[i])) && NamesDiffer(file)
  {
    hide EntryOk, Lower;
    if (forall i :: 0 <= i < |file| ==> EntryOk(rs, file[i])) && NamesDiffer(file) {
      forall i | 0 <= i < |file| ensures AgentOk(rs, file, i) { }
    }
    if AgentsOk(rs, file, |file|) {
      forall j | 0 <= j < |file|
        ensures EntryOk(rs, file[j]) && forall i :: 0 <= i < j ==> Lower(file[i].name) != Lower(file[j].name)
      {
        assert AgentOk(rs, file, j);
      }
    }
  }

  /** The parsed agents, before their library names are settled. */
  predicate ParsedFrom(rs: Resources, file: seq<FileAgent>, specs: seq<AgentSpec>, n: nat)
    requires n <= |file|
  {
    |specs| == n &&
    forall i :: 0 <= i < n ==> specs[i] == AgentSpec(i, file[i], Plants(rs, file[i].plants), file[i].library, None)
  }

  /** What is reported about the first n entries. */
  ghost predicate AgentProblems(rs: Resources, file: seq<FileAgent>, n: nat, problems: seq<Problem>)
    requires n <= |file|
  {
    forall p :: p in problems <==>
      match p
      case BadAgent(i) => i < n && !EntryOk(rs, file[i])
      case DuplicateAgent(i) => i < n && EntryOk(rs, file[i]) && NameTaken(rs, file, i, Lower(file[i].name))
      case _ => false
  }

  /** An agent in order among the first n has this name. */
  predicate NameTaken(rs: Resources, file: seq<FileAgent>, n: nat, name: string)
    requires n <= |file|
  {
    exists j :: 0 <= j < n && EntryOk(rs, file[j]) && Lower(file[j].name) == name
  }

  /** Checks the entries against the listed resources and refuses a name used twice. */
  method ParseAgents(rs: Resources, file: seq<FileAgent>) returns (specs: seq<AgentSpec>, problems: seq<Problem>)
    ensures problems == [] <==> AgentsOk(rs, file, |file|)
    ensures problems == [] ==> ParsedFrom(rs, file, specs, |file|)
    ensures AgentProblems(rs, file, |file|, problems)
    ensures forall i :: 0 <= i < |specs| ==> specs[i].libraryName == specs[i].file.library && specs[i].library.None?
  {
    hide EntryOk, Lower, Plants;
    specs, problems := [], [];
    var seen: set<string> := {};
    for i := 0 to |file|
      invariant problems == [] <==> AgentsOk(rs, file, i)
      invariant problems == [] ==> ParsedFrom(rs, file, specs, i)
      invariant AgentProblems(rs, file, i, problems) && forall x :: x in seen <==> NameTaken(rs, file, i, x)
      invariant problems == [] ==> forall x :: x in seen <==> exists j :: 0 <= j < i && Lower(file[j].name) == x
      invariant forall k :: 0 <= k < |specs| ==> specs[k].libraryName == specs[k].file.library && specs[k].library.None?
    {
      var a := file[i];
      assert problems == [] ==> (AgentOk(rs, file, i) <==> EntryOk(rs, a) && Lower(a.name) !in seen);
      if !EntryOk(rs, a) {
        problems := problems + [BadAgent(i)];
      } else if Lower(a.name) in seen {
        problems := problems + [DuplicateAgent(i)];
      } else {
        seen := seen + {Lower(a.name)};
        specs := specs + [AgentSpec(i, a, Plants(rs, a.plants), a.library, None)];
      }
    }
  }

  // ---------------------------------------------------------------- library names

  predicate NamedFrom(specs: seq<AgentSpec>, named: seq<AgentSpec>, n: nat)
    requires n <= |specs|
  {
    |named| == |specs| &&
    forall i :: 0 <= i < |specs| ==>
      named[i] == if i < n then specs[i].(libraryName := LibName(FilesOf(specs), i)) else specs[i]
  }

  /** A later agent with another configuration under the same library name is matched under its own name. */
  method AssignLibraryNames(specs: seq<AgentSpec>) returns (named: seq<AgentSpec>)
    requires forall i :: 0 <= i < |specs| ==> specs[i].libraryName == specs[i].file.library
    ensures NamedFrom(specs, named, |specs|)
  {
    hide KeyOf, Lower;
    named := specs;
    var first: map<string, Key> := map[];
    for i := 0 to |specs|
      invariant NamedFrom(specs, named, i) && first == FirstKeys(FilesOf(specs), i)
    {
      assert FilesOf(specs)[i] == specs[i].file;
      var key := Lower(named[i].libraryName);
      if key in first && first[key] != KeyOf(named[i].file) {
        named := named[i := named[i].(libraryName := named[i].file.name)];
        key := Lower(named[i].libraryName);
      }
      if key !in first {
        first := first[key := KeyOf(named[i].file)];
      }
    }
  }

  /** Another agent is matched under the same library name with another configuration. */
  predicate Mixed(specs: seq<AgentSpec>, i: nat)
    requires i < |specs|
  {
    exists j :: 0 <= j < |specs| && Lower(specs[j].libraryName) == Lower(specs[i].libraryName)
                && KeyOf(specs[j].file) != KeyOf(specs[i].file)
  }

  method CheckSharing(specs: seq<AgentSpec>) returns (problems: seq<Problem>)
    ensures problems == [] <==> forall i :: 0 <= i < |specs| ==> !Mixed(specs, i)
    ensures forall p ::
              p in problems <==> exists i :: 0 <= i < |specs| && Mixed(specs, i) && p == MixedLibrary(specs[i].index)
  {
    hide Mixed;
    problems := [];
    for i := 0 to |specs|
      invariant problems == [] <==> forall k :: 0 <= k < i ==> !Mixed(specs, k)
      invariant forall p :: p in problems <==> exists k :: 0 <= k < i && Mixed(specs, k) && p == MixedLibrary(specs[k].index)
    {
      if Mixed(specs, i) {
        problems := problems + [MixedLibrary(specs[i].index)];
      }
    }
  }

  lemma SharingMeans(specs: seq<AgentSpec>, file: seq<FileAgent>)
    requires FilesOf(specs) == file && forall i :: 0 <= i < |specs| ==> specs[i].libraryName == LibName(file, i)
    ensures (forall i :: 0 <= i < |specs| ==> !Mixed(specs, i)) <==> SharingOk(file)
  {
    hide KeyOf, Lower, LibName;
    forall i, j | 0 <= i < |specs| && 0 <= j < |specs|
      ensures specs[i].file == file[i] && specs[j].file == file[j]
    {
      assert FilesOf(specs)[i] == specs[i].file && FilesOf(specs)[j] == specs[j].file;
    }
    if SharingOk(file) {
      forall i | 0 <= i < |specs| ensures !Mixed(specs, i) { }
    } else {
      var i, j :| 0 <= i < |file| && 0 <= j < |file| && Lower(LibName(file, i)) == Lower(LibName(file, j))
                  && KeyOf(file[i]) != KeyOf(file[j]);
      assert Mixed(specs, i);
    }
  }

  // ---------------------------------------------------------------- library matches

  predicate MatchedFrom(agents: Agents, specs: seq<AgentSpec>, matched: seq<AgentSpec>, n: nat)
    requires n <= |specs|
  {
    |matched| == |specs| &&
    forall i :: 0 <= i < |specs| ==>
      matched[i] == if i < n then specs[i].(library := FindLibrary(agents, specs[i].libraryName)) else specs[i]
  }

  predicate SpecFits(stored: Resources, agents: Agents, spec: AgentSpec) {
    LibraryFits(stored, agents, spec.file, spec.libraryName)
  }

  /** A stored library agent of the name is reused if it has the file's configuration, and is a conflict otherwise. */
  method MatchLibraries(stored: Resources, agents: Agents, specs: seq<AgentSpec>)
    returns (matched: seq<AgentSpec>, problems: seq<Problem>)
    requires forall i :: 0 <= i < |specs| ==> specs[i].library.None?
    ensures problems == [] <==> forall i :: 0 <= i < |specs| ==> SpecFits(stored, agents, specs[i])
    ensures problems == [] ==> MatchedFrom(agents, specs, matched, |specs|)
    ensures forall p :: p in problems <==>
              exists i :: 0 <= i < |specs| && !SpecFits(stored, agents, specs[i]) && p == ConflictingLibrary(specs[i].index)
  {
    hide FindLibrary, SameConfig, Lower;
    matched, problems := specs, [];
    for i := 0 to |specs|
      invariant |matched| == |specs| && forall k :: i <= k < |specs| ==> matched[k] == specs[k]
      invariant problems == [] <==> forall k :: 0 <= k < i ==> SpecFits(stored, agents, specs[k])
      invariant problems == [] ==> MatchedFrom(agents, specs, matched, i)
      invariant forall p :: p in problems <==>
                  exists k :: 0 <= k < i && !SpecFits(stored, agents, specs[k]) && p == ConflictingLibrary(specs[k].index)
    {
      var library := FindLibrary(agents, specs[i].libraryName);
      if library.Some? {
        if SameConfig(stored, specs[i].file, agents[library.value]) {
          matched := matched[i := matched[i].(library := library)];
        } else {
          problems := problems + [ConflictingLibrary(specs[i].index)];
        }
      }
    }
  }

  // ---------------------------------------------------------------- the plan

  /** The plan of an acceptable document. */
  predicate PlanOf(stored: Resources, agents: Agents, doc: Document, plan: ImportPlan) {
    && SpecsOf(stored, doc.resources, plan.resources, |doc.resources|)
    && |plan.agents| == |doc.agents|
    && forall i :: 0 <= i < |doc.agents| ==>
         plan.agents[i] == AgentSpec(i, doc.agents[i], Plants(doc.resources, doc.agents[i].plants), LibName(doc.agents, i),
                                     FindLibrary(agents, LibName(doc.agents, i)))
  }

  /** Nothing is written: the document is accepted exactly when it has no problem. */
  method BuildImportPlan(stored: Resources, agents: Agents, doc: Document) returns (r: Result<ImportPlan, ImportError>)
    ensures r.Ok? <==> Acceptable(stored, agents, doc)
    ensures r.Ok? ==> PlanOf(stored, agents, doc, r.value)
    ensures r.Err? ==> r.error.problems != []
  {
    hide FindLibrary, FindResource, LibName, SameConfig, SharingOk, NamesDiffer, EntryOk, ResourceOk, Mixed, Plants, SpecFits;
    var resources, problems := ParseResources(stored, doc.resources, doc.resourceAccepted);
    var parsed, agentProblems := ParseAgents(ResourcesOf(resources), doc.agents);
    var named := AssignLibraryNames(parsed);
    var mixed := CheckSharing(named);
    var matched, conflicts := MatchLibraries(stored, agents, named);
    if problems == [] {
      assert ResourcesOf(resources) == doc.resources;
      AgentsOkMeans(doc.resources, doc.agents);
      if agentProblems == [] {
        assert FilesOf(parsed) == doc.agents;
        assert FilesOf(named) == doc.agents;
        SharingMeans(named, doc.agents);
        FitsMeans(stored, agents, named, doc.agents);
      }
    }
    var all := (if doc.headerOk then [] else [BadHeader]) + problems + agentProblems + mixed + conflicts;
    if all != [] {
      return Err(ScenarioImportError(all));
    }
    return Ok(ImportPlan(resources, matched));
  }

  lemma FitsMeans(stored: Resources, agents: Agents, specs: seq<AgentSpec>, file: seq<FileAgent>)
    requires FilesOf(specs) == file && forall i :: 0 <= i < |specs| ==> specs[i].libraryName == LibName(file, i)
    ensures (forall i :: 0 <= i < |specs| ==> SpecFits(stored, agents, specs[i])) <==>
            forall i :: 0 <= i < |file| ==> LibraryFits(stored, agents, file[i], LibName(file, i))
  {
    hide LibName, LibraryFits;
    forall i | 0 <= i < |specs|
      ensures SpecFits(stored, agents, specs[i]) <==> LibraryFits(stored, agents, file[i], LibName(file, i))
    {
      assert FilesOf(specs)[i] == specs[i].file;
    }
  }

  // ---------------------------------------------------------------- the store

  /** What the library service checks before it creates a library agent. */
  predicate InputOk(rs: Resources, agents: Agents, name: string, fields: Fields, plants: seq<Plant>) {
    && NameOk(name) && FindLibrary(agents, name).None?
    && fields.failstackLimit >= 1 && fields.failstackDelta >= 0.0 && plants != []
    && forall i :: 0 <= i < |plants| ==>
         plants[i].capacity > 0 && plants[i].resource < |rs| && Allowed(fields.kind, rs[plants[i].resource].energy)
  }

  /** A market has no agent with this name; names inside a market are case-sensitive. */
  predicate NameFree(agents: Agents, market: nat, name: string) {
    forall i :: 0 <= i < |agents| ==> agents[i].market != Some(market) || agents[i].name != name
  }

  /** Every agent that is in a market is in an existing one. */
  predicate MarketsBelow(agents: Agents, markets: nat) {
    forall i :: 0 <= i < |agents| && agents[i].market.Some? ==> agents[i].market.value < markets
  }

  /** No agent is in this market. */
  predicate NoneIn(agents: Agents, market: nat) {
    forall i :: 0 <= i < |agents| ==> agents[i].market != Some(market)
  }

  /** The ids of the first n resources of the file. */
  predicate IdsOf(rs: Resources, file: Resources, ids: seq<nat>, n: nat)
    requires n <= |file|
  {
    |ids| == n && forall i :: 0 <= i < n ==> FindResource(rs, file[i].name) == Some(ids[i])
  }

  /** A resource of the file is still missing at its turn exactly when it was missing at the start. */
  lemma ResourceIsNew(rs: Resources, file: Resources, i: nat)
    requires i < |file| && ResourcesOk(rs, file, |file|)
    ensures FindResource(ResourcesAfter(rs, file, i), file[i].name) == FindResource(rs, file[i].name)
  {
    hide FindResource, Lower;
    ResourcesFound(rs, file, i, file[i].name);
    assert ResourceOk(rs, file, i);
  }

  lemma IdsStay(rs: Resources, file: Resources, ids: seq<nat>, i: nat)
    requires i < |file| && IdsOf(rs, file, ids, i)
    ensures IdsOf(rs + [file[i]], file, ids, i)
    ensures FindResource(rs, file[i].name).None? ==> FindResource(rs + [file[i]], file[i].name) == Some(|rs|)
  {
    hide FindResource, Lower;
    FindResourceAppend(rs, file[i], file[i].name);
    forall k | 0 <= k < i
      ensures FindResource(rs + [file[i]], file[k].name) == Some(ids[k])
    {
      FindResourceAppend(rs, file[i], file[k].name);
    }
  }

  // ---------------------------------------------------------------- creating the library agents

  /** The plants with the ids of the plan's resources. */
  function WithIds(ids: seq<nat>, ps: seq<Plant>): seq<Plant> {
    seq(|ps|, i requires 0 <= i < |ps| =>
      Plant(if ps[i].resource < |ids| then ids[ps[i].resource] else 0, ps[i].capacity))
  }

  /** The resources of the document exist with its values, and its entries are in order. */
  ghost predicate Buildable(rs: Resources, agents: Agents, doc: Document) {
    && (forall i :: 0 <= i < |doc.agents| ==> EntryOk(doc.resources, doc.agents[i]))
    && forall i :: 0 <= i < |doc.resources| ==>
         FindResource(rs, doc.resources[i].name).Some?
         && SameValues(rs[FindResource(rs, doc.resources[i].name).value], doc.resources[i])
  }

  predicate SpecsFor(agents: Agents, doc: Document, specs: seq<AgentSpec>) {
    |specs| == |doc.agents| &&
    forall i :: 0 <= i < |specs| ==>
      specs[i] == AgentSpec(i, doc.agents[i], Plants(doc.resources, doc.agents[i].plants), LibName(doc.agents, i),
                            FindLibrary(agents, LibName(doc.agents, i)))
  }

  predicate LibrariesAre(agents: Agents, file: seq<FileAgent>, libraries: seq<nat>, n: nat)
    requires n <= |file|
  {
    |libraries| == n && forall i :: 0 <= i < n ==> FindLibrary(agents, LibName(file, i)) == Some(libraries[i])
  }

  /** The dictionary of created agents answers the lookups that the library before the import could not. */
  ghost predicate CreatedFor(before: Agents, agents: Agents, created: map<string, nat>) {
    forall name: string :: FindLibrary(before, name).None? ==>
      FindLibrary(agents, name) == if Lower(name) in created then Some(created[Lower(name)]) else None
  }

  lemma NothingCreated(agents: Agents)
    ensures CreatedFor(agents, agents, map[])
  {
    hide FindLibrary, Lower;
  }

  lemma OneCreated(before: Agents, agents: Agents, created: map<string, nat>, a: Agent)
    requires CreatedFor(before, agents, created) && a.market.None? && FindLibrary(agents, a.name).None?
    ensures CreatedFor(before, agents + [a], created[Lower(a.name) := |agents|])
  {
    hide FindLibrary, Lower;
    forall name: string | FindLibrary(before, name).None?
      ensures FindLibrary(agents + [a], name)
           == if Lower(name) == Lower(a.name) then Some(|agents|)
              else if Lower(name) in created then Some(created[Lower(name)]) else None
    {
      FindLibraryAppend(agents, a, name);
      if Lower(name) == Lower(a.name) {
        SameLibrary(agents, name, a.name);
      }
    }
  }

  /** What one turn of the loop relies on. */
  lemma LibraryTurn(rs: Resources, before: Agents, agents: Agents, doc: Document, spec: AgentSpec, ids: seq<nat>, i: nat,
                    created: map<string, nat>, libraries: seq<nat>)
    requires i < |doc.agents| && Buildable(rs, before, doc) && IdsOf(rs, doc.resources, ids, |doc.resources|)
    requires agents == LibrariesAfter(rs, before, doc.agents, i)
    requires LibrariesAre(agents, doc.agents, libraries, i) && CreatedFor(before, agents, created)
    requires spec == AgentSpec(i, doc.agents[i], Plants(doc.resources, doc.agents[i].plants), LibName(doc.agents, i),
                               FindLibrary(before, LibName(doc.agents, i)))
    ensures var name, next := LibName(doc.agents, i), LibrariesAfter(rs, before, doc.agents, i + 1);
            var added := Agent(name, None, spec.file.fields, WithIds(ids, spec.plants), None);
            if spec.library.Some? then
              next == agents && FindLibrary(agents, name) == spec.library
            else if Lower(name) in created then
              next == agents && FindLibrary(agents, name) == Some(created[Lower(name)])
            else
              && InputOk(rs, agents, name, spec.file.fields, WithIds(ids, spec.plants))
              && next == agents + [added] && LibrariesAre(next, doc.agents, libraries + [|agents|], i + 1)
              && CreatedFor(before, next, created[Lower(name) := |agents|])
  {
    hide FindLibrary, Lower, LibName, EntryOk, Plants, CreatedFor;
    var name := LibName(doc.agents, i);
    LibrariesFound(rs, before, doc.agents, i, name);
    if spec.library.None? {
      assert FindLibrary(agents, name) == (if Lower(name) in created then Some(created[Lower(name)]) else None) by {
        CreatedAnswers(before, agents, created, name);
      }
      if Lower(name) !in created {
        var added := NewLibrary(rs, doc.agents[i], name);
        IdsResolve(rs, doc.resources, doc.agents[i], ids);
        InputIsOk(rs, before, agents, doc, i, ids);
        OneCreated(before, agents, created, added);
        LibrariesStay(agents, doc.agents, libraries, i, added);
      }
    }
  }

  lemma CreatedAnswers(before: Agents, agents: Agents, created: map<string, nat>, name: string)
    requires CreatedFor(before, agents, created) && FindLibrary(before, name).None?
    ensures FindLibrary(agents, name) == if Lower(name) in created then Some(created[Lower(name)]) else None
  {
  }

  lemma LibrariesStay(agents: Agents, file: seq<FileAgent>, libraries: seq<nat>, i: nat, added: Agent)
    requires i < |file| && LibrariesAre(agents, file, libraries, i)
    requires added.market.None? && added.name == LibName(file, i) && FindLibrary(agents, added.name).None?
    ensures LibrariesAre(agents + [added], file, libraries + [|agents|], i + 1)
  {
    hide FindLibrary, Lower, LibName;
    forall k | 0 <= k < i + 1
      ensures FindLibrary(agents + [added], LibName(file, k)) == Some((libraries + [|agents|])[k])
    {
      FindLibraryAppend(agents, added, LibName(file, k));
    }
  }

  lemma OnePlant(rs: Resources, file: Resources, name: string, ids: seq<nat>)
    requires FindResource(file, name).Some? && IdsOf(rs, file, ids, |file|)
    ensures FindResource(rs, name) == Some(ids[FindResource(file, name).value])
    ensures IdOf(file, name) < |ids|
  {
    var k := FindResource(file, name).value;
    hide FindResource, Lower;
    SameLookup(rs, name, file[k].name);
  }

  /** Positions in the plan turned into ids are the plants of the file. */
  lemma IdsResolve(rs: Resources, file: Resources, a: FileAgent, ids: seq<nat>)
    requires EntryOk(file, a) && IdsOf(rs, file, ids, |file|)
    ensures WithIds(ids, Plants(file, a.plants)) == Plants(rs, a.plants)
  {
    hide FindResource, Lower;
    forall i | 0 <= i < |a.plants|
      ensures IdOf(file, a.plants[i].resource) < |ids|
      ensures ids[IdOf(file, a.plants[i].resource)] == IdOf(rs, a.plants[i].resource)
    {
      assert PlantOk(file, a.fields.kind, a.plants[i]);
      OnePlant(rs, file, a.plants[i].resource, ids);
    }
  }

  lemma InputIsOk(rs: Resources, before: Agents, agents: Agents, doc: Document, i: nat, ids: seq<nat>)
    requires i < |doc.agents| && Buildable(rs, before, doc) && IdsOf(rs, doc.resources, ids, |doc.resources|)
    requires FindLibrary(agents, LibName(doc.agents, i)).None?
    ensures InputOk(rs, agents, LibName(doc.agents, i), doc.agents[i].fields, Plants(rs, doc.agents[i].plants))
  {
    hide FindResource, Lower, FindLibrary;
    var a := doc.agents[i];
    assert EntryOk(doc.resources, a);
    forall k | 0 <= k < |a.plants|
      ensures var p := Plants(rs, a.plants)[k];
              p.capacity > 0 && p.resource < |rs| && Allowed(a.fields.kind, rs[p.resource].energy)
    {
      assert PlantOk(doc.resources, a.fields.kind, a.plants[k]);
      OnePlant(rs, doc.resources, a.plants[k].resource, ids);
    }
  }

  // ---------------------------------------------------------------- copying and applying

  lemma CopyTurn(libs: Agents, file: seq<FileAgent>, market: nat, i: nat, library: nat)
    requires i < |file| && AllServed(libs, file) && NamesDiffer(file) && NoneIn(libs, market)
    requires FindLibrary(libs, LibName(file, i)) == Some(library)
    ensures var now := CopiesAfter(libs, file, market, i);
            && library < |libs| <= |now| && now[library] == libs[library] && now[library].market.None?
            && NameFree(now, market, file[i].name)
            && CopiesAfter(libs, file, market, i + 1) == now + [CopyOf(now, library, market, file[i].name)]
  {
    hide Lower, LibName, CopiesAfter, AllServed;
    CopiesStep(libs, file, market, i);
    forall k | 0 <= k < |CopiesAfter(libs, file, market, i)|
      ensures var a := CopiesAfter(libs, file, market, i)[k]; a.market != Some(market) || a.name != file[i].name
    {
      if k >= |libs| {
        CopyAt(libs, file, market, i, k - |libs|);
        SameLower(file, k - |libs|, i);
      }
    }
  }

  lemma CopiesStep(libs: Agents, file: seq<FileAgent>, market: nat, i: nat)
    requires i < |file| && AllServed(libs, file)
    ensures CopiesAfter(libs, file, market, i + 1)
         == CopiesAfter(libs, file, market, i)
            + [CopyOf(libs, LibraryIndex(libs, LibName(file, i)), market, file[i].name)]
  {
  }

  lemma SameLower(file: seq<FileAgent>, j: nat, i: nat)
    requires j < i < |file| && NamesDiffer(file)
    ensures file[j].name != file[i].name
  {
  }

  lemma {:induction false} LibrariesBelow(rs: Resources, agents: Agents, file: seq<FileAgent>, n: nat, markets: nat)
    requires n <= |file| && MarketsBelow(agents, markets)
    ensures MarketsBelow(LibrariesAfter(rs, agents, file, n), markets)
  {
    hide FindLibrary, LibName;
    if n > 0 {
      LibrariesBelow(rs, agents, file, n - 1, markets);
    }
  }

  lemma {:induction false} CopiesBelow(libs: Agents, file: seq<FileAgent>, market: nat, n: nat)
    requires n <= |file| && AllServed(libs, file) && MarketsBelow(libs, market)
    ensures MarketsBelow(CopiesAfter(libs, file, market, n), market + 1)
  {
    hide FindLibrary, LibName;
    if n > 0 {
      CopiesBelow(libs, file, market, n - 1);
    }
  }

  lemma AcceptedIsBuildable(rs: Resources, agents: Agents, doc: Document)
    requires Acceptable(rs, agents, doc)
    ensures Buildable(FinalResources(rs, doc), agents, doc) && ResourcesOk(rs, doc.resources, |doc.resources|)
    ensures forall i :: 0 <= i < |doc.agents| ==> NameOk(doc.agents[i].name)
  {
    hide FindResource, Lower, SharingOk, NamesDiffer, LibraryFits, ResourceOk, ResourcesAfter;
    forall i | 0 <= i < |doc.resources|
      ensures FindResource(FinalResources(rs, doc), doc.resources[i].name).Some?
      ensures var rs' := FinalResources(rs, doc);
              SameValues(rs'[FindResource(rs', doc.resources[i].name).value], doc.resources[i])
    {
      ResourcesServed(rs, doc.resources, |doc.resources|, i);
    }
    forall i | 0 <= i < |doc.agents| ensures NameOk(doc.agents[i].name) { assert EntryOk(doc.resources, doc.agents[i]); }
  }

  // ---------------------------------------------------------------- the class

  class Store {
    var resources: Resources
    var agents: Agents
    var markets: nat

    constructor (resources: Resources, agents: Agents, markets: nat)
      ensures this.resources == resources && this.agents == agents && this.markets == markets
    {
      this.resources, this.agents, this.markets := resources, agents, markets;
    }

    method CreateLibraryAgent(name: string, fields: Fields, plants: seq<Plant>) returns (r: Result<nat, ServiceError>)
      modifies this`agents
      ensures r.Ok? <==> InputOk(resources, old(agents), name, fields, plants)
      ensures r.Ok? ==> r.value == |old(agents)| && agents == old(agents) + [Agent(name, None, fields, plants, None)]
      ensures r.Err? ==> agents == old(agents)
    {
      if !InputOk(resources, agents, name, fields, plants) {
        return Err(LibraryValidationError);
      }
      agents := agents + [Agent(name, None, fields, plants, None)];
      return Ok(|agents| - 1);
    }

    /** Copies a library, scenario or run agent with its plants into a market. */
    method CopyAgent(src: nat, market: nat, name: string) returns (r: Result<nat, ServiceError>)
      requires src < |agents|
      modifies this`agents
      ensures r.Ok? <==> NameOk(name) && NameFree(old(agents), market, name)
      ensures r.Ok? ==> r.value == |old(agents)| && agents == old(agents) + [CopyOf(old(agents), src, market, name)]
      ensures r.Err? ==> agents == old(agents)
    {
      if !NameOk(name) || !NameFree(agents, market, name) {
        return Err(LibraryValidationError);
      }
      agents := agents + [CopyOf(agents, src, market, name)];
      return Ok(|agents| - 1);
    }

    /** Creates the resources that the plan did not match; `ids` are the ids of the file's resources. */
    method CreateResources(specs: seq<ResourceSpec>, ghost file: Resources) returns (ids: seq<nat>)
      requires SpecsOf(resources, file, specs, |file|) && ResourcesOk(resources, file, |file|)
      modifies this`resources
      ensures resources == ResourcesAfter(old(resources), file, |file|)
      ensures IdsOf(resources, file, ids, |file|)
    {
      hide FindResource, Lower, ResourceOk;
      ids := [];
      for i := 0 to |specs|
        invariant resources == ResourcesAfter(old(resources), file, i) && IdsOf(resources, file, ids, i)
      {
        ResourceIsNew(old(resources), file, i);
        IdsStay(resources, file, ids, i);
        if specs[i].existing.Some? {
          ids := ids + [specs[i].existing.value];
        } else {
          ids := ids + [|resources|];
          resources := resources + [specs[i].resource];
        }
      }
    }

    /** The library agent of every file agent: the matched one, one created for the same name before, or a new one. */
    method CreateLibraries(specs: seq<AgentSpec>, ids: seq<nat>, ghost doc: Document)
      returns (libraries: seq<nat>)
      requires Buildable(resources, agents, doc) && SpecsFor(agents, doc, specs)
      requires IdsOf(resources, doc.resources, ids, |doc.resources|)
      modifies this`agents
      ensures agents == LibrariesAfter(resources, old(agents), doc.agents, |doc.agents|)
      ensures LibrariesAre(agents, doc.agents, libraries, |doc.agents|)
    {
      hide FindLibrary, Lower, LibName, Buildable, Plants, CreatedFor;
      var created: map<string, nat> := map[];
      libraries := [];
      ghost var before := agents;
      NothingCreated(agents);
      for i := 0 to |specs|
        invariant agents == LibrariesAfter(resources, before, doc.agents, i)
        invariant LibrariesAre(agents, doc.agents, libraries, i) && CreatedFor(before, agents, created)
      {
        var key := Lower(specs[i].libraryName);
        LibraryTurn(resources, before, agents, doc, specs[i], ids, i, created, libraries);
        if specs[i].library.Some? {
          libraries := libraries + [specs[i].library.value];
        } else if key in created {
          libraries := libraries + [created[key]];
        } else {
          var library := CreateLibraryAgent(specs[i].libraryName, specs[i].file.fields, WithIds(ids, specs[i].plants));
          created := created[key := library.value];
          libraries := libraries + [library.value];
        }
      }
    }

    /** Copies the library agent of every file agent into the new market, under the name in the file. */
    method CopyAgents(specs: seq<AgentSpec>, libraries: seq<nat>, market: nat, ghost doc: Document)
      requires LibrariesAre(agents, doc.agents, libraries, |doc.agents|) && FilesOf(specs) == doc.agents
      requires NamesDiffer(doc.agents) && forall i :: 0 <= i < |doc.agents| ==> NameOk(doc.agents[i].name)
      requires NoneIn(agents, market)
      modifies this`agents
      ensures AllServed(old(agents), doc.agents)
      ensures agents == CopiesAfter(old(agents), doc.agents, market, |doc.agents|)
    {
      hide FindLibrary, Lower, LibName, NamesDiffer;
      ghost var libs := agents;
      for i := 0 to |specs|
        invariant AllServed(libs, doc.agents)
        invariant agents == CopiesAfter(libs, doc.agents, market, i)
      {
        assert FilesOf(specs)[i] == specs[i].file;
        CopyTurn(libs, doc.agents, market, i, libraries[i]);
        var _ := CopyAgent(libraries[i], market, specs[i].file.name);
      }
    }

    /** Writes an accepted plan: no step of it can be rejected. */
    method ApplyImportPlan(plan: ImportPlan, ghost doc: Document)
      requires MarketsBelow(agents, markets)
      requires Acceptable(resources, agents, doc) && PlanOf(resources, agents, doc, plan)
      modifies this
      ensures markets == old(markets) + 1 && MarketsBelow(agents, markets)
      ensures AllServed(FinalLibraries(old(resources), old(agents), doc), doc.agents)
      ensures resources == FinalResources(old(resources), doc)
      ensures agents == FinalAgents(old(resources), old(agents), doc, old(markets))
    {
      hide FindLibrary, FindResource, Lower, LibName, SharingOk, NamesDiffer, EntryOk, ResourceOk, LibraryFits, Plants,
           ResourcesAfter, LibrariesAfter, CopiesAfter;
      AcceptedIsBuildable(resources, agents, doc);
      var ids := CreateResources(plan.resources, doc.resources);
      var libraries := CreateLibraries(plan.agents, ids, doc);
      var market := markets;
      markets := markets + 1;
      LibrariesBelow(resources, old(agents), doc.agents, |doc.agents|, market);
      assert FilesOf(plan.agents) == doc.agents;
      CopyAgents(plan.agents, libraries, market, doc);
      CopiesBelow(FinalLibraries(old(resources), old(agents), doc), doc.agents, market, |doc.agents|);
    }
  }
}
