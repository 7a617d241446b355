/** The module index of dove (dove/src/index/mod.rs): imports are resolved through local, git
    and chain entries, and modules that are not indexed are fetched from the chain. */
module DependencyIndex {
  import opened Wrappers

  type ModuleId = string
  type Path = string

  datatype SourceType = Local | Git | Chain

  datatype Module = Module(name: ModuleId, depName: string, path: Path, sourceType: SourceType, dependencies: set<ModuleId>)

  type ModulesIndex = map<ModuleId, map<SourceType, Module>>

  datatype DefinitionMeta = DefinitionMeta(moduleId: ModuleId, imports: set<ModuleId>)

  datatype FileMeta = FileMeta(path: Path, meta: seq<DefinitionMeta>)

  /** A fetched module: the name of the dependency and the metadata of its files. */
  datatype Fetched = Fetched(depName: string, files: seq<FileMeta>)

  /** The chain: the file of a module, or an error. */
  type ChainSource = ModuleId -> Option<Fetched>

  function GetModule(modules: ModulesIndex, name: ModuleId): Option<Module> {
    if name !in modules then None
    else if Local in modules[name] then Some(modules[name][Local])
    else if Git in modules[name] then Some(modules[name][Git])
    else if Chain in modules[name] then Some(modules[name][Chain])
    else None
  }

  function Stored(modules: ModulesIndex, path: Path, unit: DefinitionMeta, source: SourceType, depName: string): ModulesIndex {
    var entry := if unit.moduleId in modules then modules[unit.moduleId] else map[];
    modules[unit.moduleId := entry[source := Module(unit.moduleId, depName, path, source, unit.imports)]]
  }

  function AllStored(modules: ModulesIndex, path: Path, units: seq<DefinitionMeta>, source: SourceType, depName: string): ModulesIndex {
    if units == [] then modules
    else Stored(AllStored(modules, path, units[..|units| - 1], source, depName), path, units[|units| - 1], source, depName)
  }

  function FilesStored(modules: ModulesIndex, files: seq<FileMeta>, source: SourceType, depName: string): ModulesIndex {
    if files == [] then modules
    else
      var n := |files| - 1;
      AllStored(FilesStored(modules, files[..n], source, depName), files[n].path, files[n].meta, source, depName)
  }

  // ----- The graph of modules -----

  datatype Node = Node(path: Path, imports: set<ModuleId>)

  /** What the chain gives for a module: one file with that module and no other. */
  ghost predicate Honest(chain: ChainSource) {
    forall id :: chain(id).Some? ==>
      var files := chain(id).value.files;
      |files| == 1 && |files[0].meta| == 1 && files[0].meta[0].moduleId == id
  }

  /** So is every chain that answers with files of one module each. */
  lemma OneModulePerFile(chain: ChainSource, file: ModuleId -> Option<(string, Path, set<ModuleId>)>)
    requires forall id :: chain(id) ==
                          match file(id)
                          case None => None
                          case Some(f) => Some(Fetched(f.0, [FileMeta(f.1, [DefinitionMeta(id, f.2)])]))
    ensures Honest(chain)
  {
  }

  ghost function ChainFile(chain: ChainSource, id: ModuleId): FileMeta
    requires Honest(chain) && chain(id).Some?
  {
    chain(id).value.files[0]
  }

  /** Where a module is found: a local entry before a git entry before a chain entry before
      the chain itself. */
  ghost function Lookup(modules: ModulesIndex, chain: ChainSource, id: ModuleId): Option<Node>
    requires Honest(chain)
  {
    match GetModule(modules, id)
    case Some(m) => Some(Node(m.path, m.dependencies))
    case None =>
      if chain(id).None? then None
      else Some(Node(ChainFile(chain, id).path, ChainFile(chain, id).meta[0].imports))
  }

  /** The imports lead to a module along a path through modules that are found. */
  ghost predicate IsPath(modules: ModulesIndex, chain: ChainSource, imports: set<ModuleId>, p: seq<ModuleId>)
    requires Honest(chain)
  {
    p != [] && p[0] in imports
    && forall i :: 0 <= i < |p| - 1 ==> Follows(modules, chain, p[i], p[i + 1])
  }

  ghost predicate Follows(modules: ModulesIndex, chain: ChainSource, a: ModuleId, b: ModuleId)
    requires Honest(chain)
  {
    Lookup(modules, chain, a).Some? && b in Lookup(modules, chain, a).value.imports
  }

  ghost predicate Reaches(modules: ModulesIndex, chain: ChainSource, imports: set<ModuleId>, id: ModuleId)
    requires Honest(chain)
  {
    exists p :: IsPath(modules, chain, imports, p) && p[|p| - 1] == id
  }

  /** Each module that the imports reach has a higher rank than what it imports: among these
      modules there is no cycle. */
  ghost predicate Acyclic(modules: ModulesIndex, chain: ChainSource, imports: set<ModuleId>, rank: ModuleId -> nat)
    requires Honest(chain)
  {
    forall a, b :: Reaches(modules, chain, imports, a) && Follows(modules, chain, a, b) ==> rank(b) < rank(a)
  }

  // ----- Reachability -----

  lemma ReachesImport(modules: ModulesIndex, chain: ChainSource, imports: set<ModuleId>, id: ModuleId)
    requires Honest(chain) && id in imports
    ensures Reaches(modules, chain, imports, id)
  {
    assert IsPath(modules, chain, imports, [id]);
  }

  lemma ReachesFurther(modules: ModulesIndex, chain: ChainSource, x: ModuleId, id: ModuleId)
    requires Honest(chain) && Lookup(modules, chain, x).Some?
    ensures Reaches(modules, chain, {x}, id) <==> id == x || Reaches(modules, chain, Lookup(modules, chain, x).value.imports, id)
  {
    hide Lookup;
    var next := Lookup(modules, chain, x).value.imports;
    if Reaches(modules, chain, {x}, id) {
      var p :| IsPath(modules, chain, {x}, p) && p[|p| - 1] == id;
      if |p| > 1 {
        TailIsPath(modules, chain, p);
        assert p[1..][|p[1..]| - 1] == id;
      }
    }
    if id == x {
      ReachesImport(modules, chain, {x}, x);
    } else if Reaches(modules, chain, next, id) {
      var p :| IsPath(modules, chain, next, p) && p[|p| - 1] == id;
      var q := [x] + p;
      forall i | 0 <= i < |q| - 1 ensures Follows(modules, chain, q[i], q[i + 1]) {
        if i > 0 {
          assert q[i] == p[i - 1] && q[i + 1] == p[i - 1 + 1];
        }
      }
      assert IsPath(modules, chain, {x}, q) && q[|q| - 1] == id;
    }
  }

  lemma TailIsPath(modules: ModulesIndex, chain: ChainSource, p: seq<ModuleId>)
    requires Honest(chain) && |p| > 1 && IsPath(modules, chain, {p[0]}, p) && Lookup(modules, chain, p[0]).Some?
    ensures IsPath(modules, chain, Lookup(modules, chain, p[0]).value.imports, p[1..])
  {
  }

  lemma ReachesUnion(modules: ModulesIndex, chain: ChainSource, a: set<ModuleId>, b: set<ModuleId>, id: ModuleId)
    requires Honest(chain)
    ensures Reaches(modules, chain, a + b, id) <==> Reaches(modules, chain, a, id) || Reaches(modules, chain, b, id)
  {
  }

  // ----- Growth of the index -----

  /** An entry is as before, or it was found nowhere in the index and got the module of the chain. */
  ghost predicate Grown(before: ModulesIndex, after: ModulesIndex, chain: ChainSource)
    requires Honest(chain)
  {
    forall id :: SameEntry(before, after, id) || Fetches(before, after, chain, id)
  }

  ghost predicate SameEntry(before: ModulesIndex, after: ModulesIndex, id: ModuleId) {
    (id in before <==> id in after) && (id in before ==> before[id] == after[id])
  }

  ghost predicate Fetches(before: ModulesIndex, after: ModulesIndex, chain: ChainSource, id: ModuleId)
    requires Honest(chain)
  {
    GetModule(before, id).None? && chain(id).Some? && id in after
    && after[id] == (if id in before then before[id] else map[])[Chain := ChainModule(chain, id)]
  }

  ghost function ChainModule(chain: ChainSource, id: ModuleId): Module
    requires Honest(chain) && chain(id).Some?
  {
    Module(id, chain(id).value.depName, ChainFile(chain, id).path, Chain, ChainFile(chain, id).meta[0].imports)
  }

  lemma FetchedIsFound(before: ModulesIndex, after: ModulesIndex, chain: ChainSource, id: ModuleId)
    requires Honest(chain) && Fetches(before, after, chain, id)
    ensures GetModule(after, id) == Some(ChainModule(chain, id)) && Lookup(after, chain, id) == Lookup(before, chain, id)
  {
  }

  /** Growth does not change where any module is found. */
  lemma GrowthKeepsLookup(before: ModulesIndex, after: ModulesIndex, chain: ChainSource, id: ModuleId)
    requires Honest(chain) && Grown(before, after, chain)
    ensures Lookup(after, chain, id) == Lookup(before, chain, id)
    ensures GetModule(before, id).Some? ==> SameEntry(before, after, id) && GetModule(after, id) == GetModule(before, id)
  {
    assert SameEntry(before, after, id) || Fetches(before, after, chain, id);
    if Fetches(before, after, chain, id) {
      FetchedIsFound(before, after, chain, id);
    }
  }

  lemma GrowthKeepsReaches(before: ModulesIndex, after: ModulesIndex, chain: ChainSource, imports: set<ModuleId>)
    requires Honest(chain) && Grown(before, after, chain)
    ensures forall id :: Reaches(after, chain, imports, id) <==> Reaches(before, chain, imports, id)
    ensures forall a, b :: Follows(after, chain, a, b) <==> Follows(before, chain, a, b)
  {
    hide Grown, Lookup;
    forall a, b ensures Follows(after, chain, a, b) <==> Follows(before, chain, a, b) {
      GrowthKeepsLookup(before, after, chain, a);
    }
    hide Follows;
    forall p ensures IsPath(after, chain, imports, p) <==> IsPath(before, chain, imports, p) {
    }
  }

  lemma GrowthComposes(a: ModulesIndex, b: ModulesIndex, c: ModulesIndex, chain: ChainSource)
    requires Honest(chain) && Grown(a, b, chain) && Grown(b, c, chain)
    ensures Grown(a, c, chain)
  {
    hide GetModule, Honest;
    forall id ensures SameEntry(a, c, id) || Fetches(a, c, chain, id) {
      EntryComposes(a, b, c, chain, id);
    }
  }

  lemma EntryComposes(a: ModulesIndex, b: ModulesIndex, c: ModulesIndex, chain: ChainSource, id: ModuleId)
    requires Honest(chain) && Grown(a, b, chain) && Grown(b, c, chain)
    ensures SameEntry(a, c, id) || Fetches(a, c, chain, id)
  {
    assert SameEntry(a, b, id) || Fetches(a, b, chain, id);
    assert SameEntry(b, c, id) || Fetches(b, c, chain, id);
  }

  lemma StoringGrows(modules: ModulesIndex, chain: ChainSource, id: ModuleId)
    requires Honest(chain) && chain(id).Some? && GetModule(modules, id).None?
    ensures var after := FilesStored(modules, chain(id).value.files, Chain, chain(id).value.depName);
            Grown(modules, after, chain) && Fetches(modules, after, chain, id)
            && forall other :: other != id ==> SameEntry(modules, after, other)
  {
    var files, depName := chain(id).value.files, chain(id).value.depName;
    OneFileStored(modules, files[0], Chain, depName);
    assert files == [files[0]];
  }

  lemma {:induction false} OneFileStored(modules: ModulesIndex, file: FileMeta, source: SourceType, depName: string)
    requires |file.meta| == 1
    ensures FilesStored(modules, [file], source, depName) == Stored(modules, file.path, file.meta[0], source, depName)
  {
    assert [file][..0] == [] && file.meta[..0] == [];
    assert FilesStored(modules, [], source, depName) == modules;
    assert AllStored(modules, file.path, [], source, depName) == modules;
    assert AllStored(modules, file.path, file.meta, source, depName) == Stored(modules, file.path, file.meta[0], source, depName);
  }

  // ----- What is stored -----

  ghost function EntryOf(modules: ModulesIndex, id: ModuleId, source: SourceType): Option<Module> {
    if id in modules && source in modules[id] then Some(modules[id][source]) else None
  }

  ghost predicate Defines(units: seq<DefinitionMeta>, id: ModuleId) {
    exists k :: 0 <= k < |units| && units[k].moduleId == id
  }

  /** The last unit of the files that defines the module is unit `k` of file `i`. */
  ghost predicate DefinedLast(files: seq<FileMeta>, id: ModuleId, i: nat, k: nat) {
    i < |files| && DefinedLastIn(files[i].meta, id, k) && forall j :: i < j < |files| ==> !Defines(files[j].meta, id)
  }

  ghost predicate DefinedLastIn(units: seq<DefinitionMeta>, id: ModuleId, k: nat) {
    k < |units| && units[k].moduleId == id && forall j :: k < j < |units| ==> units[j].moduleId != id
  }

  lemma UnitIsStored(modules: ModulesIndex, path: Path, unit: DefinitionMeta, source: SourceType, depName: string,
                     id: ModuleId, src: SourceType)
    ensures EntryOf(Stored(modules, path, unit, source, depName), id, src) ==
            if id == unit.moduleId && src == source then Some(Module(id, depName, path, source, unit.imports))
            else EntryOf(modules, id, src)
  {
  }

  lemma {:induction false} UnitsAreStored(modules: ModulesIndex, path: Path, units: seq<DefinitionMeta>, source: SourceType,
                                          depName: string, id: ModuleId, src: SourceType)
    ensures var after := AllStored(modules, path, units, source, depName);
            (src != source || !Defines(units, id) ==> EntryOf(after, id, src) == EntryOf(modules, id, src))
            && forall k: nat :: src == source && DefinedLastIn(units, id, k) ==>
                 EntryOf(after, id, src) == Some(Module(id, depName, path, source, units[k].imports))
    decreases |units|
  {
    hide Stored, EntryOf, Defines;
    if units != [] {
      var front, last := units[..|units| - 1], units[|units| - 1];
      UnitsAreStored(modules, path, front, source, depName, id, src);
      UnitIsStored(AllStored(modules, path, front, source, depName), path, last, source, depName, id, src);
      DefinesSnoc(units, id);
      forall k: nat | src == source && DefinedLastIn(units, id, k)
        ensures EntryOf(AllStored(modules, path, units, source, depName), id, src) ==
                Some(Module(id, depName, path, source, units[k].imports))
      {
        assert k < |front| ==> front[k] == units[k] && DefinedLastIn(front, id, k);
      }
    }
  }

  lemma DefinesSnoc(units: seq<DefinitionMeta>, id: ModuleId)
    requires units != []
    ensures Defines(units, id) <==> Defines(units[..|units| - 1], id) || units[|units| - 1].moduleId == id
  {
    var front := units[..|units| - 1];
    if Defines(front, id) {
      var k :| 0 <= k < |front| && front[k].moduleId == id;
      assert units[k].moduleId == id;
    }
  }

  /** After storing files, the entry of a module under their source is made of the last unit
      that defines it, with the path of its file; all other entries are as they were. */
  lemma {:induction false} FilesAreStored(modules: ModulesIndex, files: seq<FileMeta>, source: SourceType, depName: string,
                                          id: ModuleId, src: SourceType)
    ensures var after := FilesStored(modules, files, source, depName);
            (src != source || (forall i :: 0 <= i < |files| ==> !Defines(files[i].meta, id)) ==>
               EntryOf(after, id, src) == EntryOf(modules, id, src))
            && forall i: nat, k: nat :: src == source && DefinedLast(files, id, i, k) ==>
                 EntryOf(after, id, src) == Some(Module(id, depName, files[i].path, source, files[i].meta[k].imports))
    decreases |files|
  {
    hide AllStored, EntryOf, Defines;
    if files != [] {
      var n := |files| - 1;
      var before := FilesStored(modules, files[..n], source, depName);
      FilesAreStored(modules, files[..n], source, depName, id, src);
      UnitsAreStored(before, files[n].path, files[n].meta, source, depName, id, src);
      forall i: nat, k: nat | src == source && DefinedLast(files, id, i, k)
        ensures EntryOf(FilesStored(modules, files, source, depName), id, src) ==
                Some(Module(id, depName, files[i].path, source, files[i].meta[k].imports))
      {
        if i < n {
          assert files[..n][i] == files[i] && DefinedLast(files[..n], id, i, k);
          assert !Defines(files[n].meta, id);
        }
      }
    }
  }

  // ----- The closure -----

  /** All that the imports reach is found. */
  ghost predicate Resolvable(modules: ModulesIndex, chain: ChainSource, imports: set<ModuleId>)
    requires Honest(chain)
  {
    forall id :: Reaches(modules, chain, imports, id) ==> Lookup(modules, chain, id).Some?
  }

  ghost predicate PathOfReached(modules: ModulesIndex, chain: ChainSource, imports: set<ModuleId>, path: Path)
    requires Honest(chain)
  {
    exists id :: Reaches(modules, chain, imports, id) && Lookup(modules, chain, id).Some? && Lookup(modules, chain, id).value.path == path
  }

  /** Exactly the paths of the reached modules were added. */
  ghost predicate PathsAdded(modules: ModulesIndex, chain: ChainSource, imports: set<ModuleId>, before: set<Path>, after: set<Path>)
    requires Honest(chain)
  {
    forall path :: path in after <==> path in before || PathOfReached(modules, chain, imports, path)
  }

  /** The index grew by reached modules of the chain only; after a success all that is reached
      is indexed. */
  ghost predicate IndexClosed(before: ModulesIndex, after: ModulesIndex, chain: ChainSource, imports: set<ModuleId>, ok: bool)
    requires Honest(chain)
  {
    Grown(before, after, chain)
    && (forall id :: !Reaches(before, chain, imports, id) ==> SameEntry(before, after, id))
    && (ok ==> forall id :: Reaches(before, chain, imports, id) ==> GetModule(after, id).Some?)
  }

  /** The outcome of a resolution. */
  ghost predicate Closure(before: ModulesIndex, after: ModulesIndex, chain: ChainSource, imports: set<ModuleId>, ok: bool,
                          deps: set<Path>, deps': set<Path>)
    requires Honest(chain)
  {
    (ok <==> Resolvable(before, chain, imports))
    && IndexClosed(before, after, chain, imports, ok)
    && (ok ==> PathsAdded(before, chain, imports, deps, deps'))
  }

  lemma NothingToClose(modules: ModulesIndex, chain: ChainSource, deps: set<Path>)
    requires Honest(chain)
    ensures Closure(modules, modules, chain, {}, true, deps, deps)
  {
  }

  lemma PathsUnion(modules: ModulesIndex, chain: ChainSource, a: set<ModuleId>, b: set<ModuleId>)
    requires Honest(chain)
    ensures forall path :: PathOfReached(modules, chain, a + b, path) <==>
              PathOfReached(modules, chain, a, path) || PathOfReached(modules, chain, b, path)
    ensures Resolvable(modules, chain, a + b) <==> Resolvable(modules, chain, a) && Resolvable(modules, chain, b)
  {
  }

  lemma GrowthKeepsPaths(before: ModulesIndex, after: ModulesIndex, chain: ChainSource, imports: set<ModuleId>)
    requires Honest(chain) && Grown(before, after, chain)
    ensures forall path :: PathOfReached(after, chain, imports, path) <==> PathOfReached(before, chain, imports, path)
    ensures Resolvable(after, chain, imports) <==> Resolvable(before, chain, imports)
  {
    hide Lookup, Reaches, Grown;
    GrowthKeepsReaches(before, after, chain, imports);
    forall id ensures Lookup(after, chain, id) == Lookup(before, chain, id) {
      GrowthKeepsLookup(before, after, chain, id);
    }
  }

  /** Resolving some imports and then others resolves all of them. */
  lemma ClosureComposes(m0: ModulesIndex, m1: ModulesIndex, m2: ModulesIndex, chain: ChainSource,
                        a: set<ModuleId>, b: set<ModuleId>, ok: bool,
                        deps0: set<Path>, deps1: set<Path>, deps2: set<Path>)
    requires Honest(chain) && Closure(m0, m1, chain, a, true, deps0, deps1) && Closure(m1, m2, chain, b, ok, deps1, deps2)
    ensures Closure(m0, m2, chain, a + b, ok, deps0, deps2)
  {
    hide PathOfReached, Resolvable, Grown;
    PathsUnion(m0, chain, a, b);
    GrowthKeepsPaths(m0, m1, chain, b);
    GrowthComposes(m0, m1, m2, chain);
    IndexComposes(m0, m1, m2, chain, a, b, ok);
  }

  lemma IndexComposes(m0: ModulesIndex, m1: ModulesIndex, m2: ModulesIndex, chain: ChainSource,
                      a: set<ModuleId>, b: set<ModuleId>, ok: bool)
    requires Honest(chain) && IndexClosed(m0, m1, chain, a, true) && IndexClosed(m1, m2, chain, b, ok)
    ensures IndexClosed(m0, m2, chain, a + b, ok)
  {
    hide Grown, GetModule, Reaches, Honest;
    GrowthComposes(m0, m1, m2, chain);
    GrowthKeepsReaches(m0, m1, chain, b);
    forall id ensures Reaches(m0, chain, a + b, id) <==> Reaches(m0, chain, a, id) || Reaches(m0, chain, b, id) {
      ReachesUnion(m0, chain, a, b, id);
    }
    forall id | ok && Reaches(m0, chain, a + b, id) ensures GetModule(m2, id).Some? {
      if Reaches(m0, chain, a, id) {
        GrowthKeepsLookup(m1, m2, chain, id);
      }
    }
  }

  /** A failure among some imports is a failure of all. */
  lemma FailureSpreads(before: ModulesIndex, after: ModulesIndex, chain: ChainSource,
                       some: set<ModuleId>, imports: set<ModuleId>, deps: set<Path>, deps': set<Path>)
    requires Honest(chain) && some <= imports && Closure(before, after, chain, some, false, deps, deps')
    ensures Closure(before, after, chain, imports, false, deps, deps')
  {
  }

  lemma PathsFurther(modules: ModulesIndex, chain: ChainSource, x: ModuleId)
    requires Honest(chain) && Lookup(modules, chain, x).Some?
    ensures var node := Lookup(modules, chain, x).value;
            && (forall path :: PathOfReached(modules, chain, {x}, path) <==>
                  path == node.path || PathOfReached(modules, chain, node.imports, path))
            && (Resolvable(modules, chain, {x}) <==> Resolvable(modules, chain, node.imports))
  {
    hide Lookup, Reaches;
    var node := Lookup(modules, chain, x).value;
    forall id ensures Reaches(modules, chain, {x}, id) <==> id == x || Reaches(modules, chain, node.imports, id) {
      ReachesFurther(modules, chain, x, id);
    }
    assert Reaches(modules, chain, {x}, x);
  }

  /** An indexed module, resolved through its dependencies. */
  lemma FoundCloses(before: ModulesIndex, after: ModulesIndex, chain: ChainSource, x: ModuleId, ok: bool,
                    deps: set<Path>, deps': set<Path>)
    requires Honest(chain) && GetModule(before, x).Some?
    requires var m := GetModule(before, x).value; Closure(before, after, chain, m.dependencies, ok, deps + {m.path}, deps')
    ensures Closure(before, after, chain, {x}, ok, deps, deps')
  {
    var m := GetModule(before, x).value;
    assert Lookup(before, chain, x) == Some(Node(m.path, m.dependencies));
    hide Grown, Reaches, Lookup, Honest, PathOfReached, Resolvable;
    PathsFurther(before, chain, x);
    forall id ensures Reaches(before, chain, {x}, id) <==> id == x || Reaches(before, chain, m.dependencies, id) {
      ReachesFurther(before, chain, x, id);
    }
    GrowthKeepsLookup(before, after, chain, x);
  }

  /** A module of the chain whose imports cannot be resolved. */
  lemma ChainFails(before: ModulesIndex, after: ModulesIndex, chain: ChainSource, x: ModuleId,
                   deps: set<Path>, deps': set<Path>)
    requires Honest(chain) && GetModule(before, x).None?
    requires chain(x).None? ==> after == before
    requires chain(x).Some? ==> Closure(before, after, chain, ChainFile(chain, x).meta[0].imports, false, deps, deps')
    ensures Closure(before, after, chain, {x}, false, deps, deps')
  {
    ReachesImport(before, chain, {x}, x);
    if chain(x).Some? {
      hide Grown, Reaches, Honest, PathOfReached, Resolvable;
      PathsFurther(before, chain, x);
      forall id ensures Reaches(before, chain, {x}, id) <==> id == x || Reaches(before, chain, ChainFile(chain, x).meta[0].imports, id) {
        ReachesFurther(before, chain, x, id);
      }
    }
  }

  lemma FoundOnChain(modules: ModulesIndex, chain: ChainSource, x: ModuleId)
    requires Honest(chain) && GetModule(modules, x).None? && chain(x).Some?
    ensures Lookup(modules, chain, x) == Some(Node(ChainFile(chain, x).path, ChainFile(chain, x).meta[0].imports))
  {
  }

  /** A module of the chain: its imports are resolved, it is stored, and then it is resolved
      as an indexed module, which finds the same imports once more. */
  lemma {:induction false} ChainCloses(m0: ModulesIndex, m1: ModulesIndex, m2: ModulesIndex, m3: ModulesIndex, chain: ChainSource,
                                       x: ModuleId, ok: bool, deps0: set<Path>, deps1: set<Path>, deps2: set<Path>)
    requires Honest(chain) && GetModule(m0, x).None? && chain(x).Some? && GetModule(m1, x).None?
    requires Closure(m0, m1, chain, ChainFile(chain, x).meta[0].imports, true, deps0, deps1)
    requires m2 == FilesStored(m1, chain(x).value.files, Chain, chain(x).value.depName)
    requires Closure(m2, m3, chain, {x}, ok, deps1, deps2)
    ensures Closure(m0, m3, chain, {x}, ok, deps0, deps2)
  {
    var imports := ChainFile(chain, x).meta[0].imports;
    hide FilesStored, GetModule, Grown, Reaches, Lookup, PathOfReached, Resolvable, Fetches;
    StoringGrows(m1, chain, x);
    FoundOnChain(m0, chain, x);
    GrowthComposes(m0, m1, m2, chain);
    GrowthComposes(m0, m2, m3, chain);
    GrowthKeepsPaths(m0, m2, chain, {x});
    GrowthKeepsReaches(m0, m2, chain, {x});
    PathsFurther(m0, chain, x);
    ReachesImport(m0, chain, {x}, x);
    forall id ensures Reaches(m0, chain, imports, id) ==> Reaches(m0, chain, {x}, id) {
      ReachesFurther(m0, chain, x, id);
    }
    forall id | !Reaches(m0, chain, {x}, id) ensures SameEntry(m0, m3, id) {
      assert SameEntry(m0, m1, id);
      assert SameEntry(m1, m2, id);
      assert SameEntry(m2, m3, id);
    }
  }

  /** What is reached ranks below the bound of the imports. */
  lemma ReachedRanksBelow(modules: ModulesIndex, chain: ChainSource, rank: ModuleId -> nat, imports: set<ModuleId>,
                          bound: nat, id: ModuleId)
    requires Honest(chain) && Acyclic(modules, chain, imports, rank) && (forall i :: i in imports ==> rank(i) < bound)
    requires Reaches(modules, chain, imports, id)
    ensures rank(id) < bound
  {
    hide Follows;
    var p :| IsPath(modules, chain, imports, p) && p[|p| - 1] == id;
    for i := 1 to |p|
      invariant rank(p[i - 1]) < bound
    {
      assert IsPath(modules, chain, imports, p[..i]) && p[..i][|p[..i]| - 1] == p[i - 1];
      assert Follows(modules, chain, p[i - 1], p[i - 1 + 1]);
    }
  }

  // The imports of a module rank below it.
  lemma ImportsRankBelow(modules: ModulesIndex, chain: ChainSource, rank: ModuleId -> nat, x: ModuleId)
    requires Honest(chain) && Acyclic(modules, chain, {x}, rank) && Lookup(modules, chain, x).Some?
    ensures var imports := Lookup(modules, chain, x).value.imports;
            (forall i :: i in imports ==> rank(i) < rank(x)) && Acyclic(modules, chain, imports, rank)
  {
    hide Lookup, Reaches;
    ReachesImport(modules, chain, {x}, x);
    var imports := Lookup(modules, chain, x).value.imports;
    forall i | i in imports ensures rank(i) < rank(x) {
      assert Follows(modules, chain, x, i);
    }
    forall a | Reaches(modules, chain, imports, a) ensures Reaches(modules, chain, {x}, a) {
      ReachesFurther(modules, chain, x, a);
    }
  }

  lemma OneOfThemIsAcyclic(modules: ModulesIndex, chain: ChainSource, imports: set<ModuleId>, rank: ModuleId -> nat,
                           x: ModuleId)
    requires Honest(chain) && Acyclic(modules, chain, imports, rank) && x in imports
    ensures Acyclic(modules, chain, {x}, rank)
  {
    hide Reaches, Follows;
    forall a | Reaches(modules, chain, {x}, a) ensures Reaches(modules, chain, imports, a) {
      ReachesUnion(modules, chain, imports, {x}, a);
      assert imports + {x} == imports;
    }
  }

  lemma StaysAcyclic(before: ModulesIndex, after: ModulesIndex, chain: ChainSource, imports: set<ModuleId>,
                     rank: ModuleId -> nat)
    requires Honest(chain) && Acyclic(before, chain, imports, rank) && Grown(before, after, chain)
    ensures Acyclic(after, chain, imports, rank)
  {
    hide Follows, Grown, Reaches;
    GrowthKeepsReaches(before, after, chain, imports);
  }

  // Without cycles, a module is not fetched while its imports are resolved.
  lemma NotYetIndexed(before: ModulesIndex, after: ModulesIndex, chain: ChainSource, x: ModuleId,
                      rank: ModuleId -> nat, ok: bool)
    requires Honest(chain) && Acyclic(before, chain, {x}, rank) && GetModule(before, x).None? && chain(x).Some?
    requires IndexClosed(before, after, chain, ChainFile(chain, x).meta[0].imports, ok)
    ensures GetModule(after, x).None?
  {
    hide Reaches, Acyclic;
    ImportsRankBelow(before, chain, rank, x);
    if Reaches(before, chain, ChainFile(chain, x).meta[0].imports, x) {
      ReachedRanksBelow(before, chain, rank, ChainFile(chain, x).meta[0].imports, rank(x), x);
    }
    assert SameEntry(before, after, x);
  }

  lemma ClosureGrows(before: ModulesIndex, after: ModulesIndex, chain: ChainSource, imports: set<ModuleId>, ok: bool,
                     deps: set<Path>, deps': set<Path>)
    requires Honest(chain) && Closure(before, after, chain, imports, ok, deps, deps')
    ensures Grown(before, after, chain) && IndexClosed(before, after, chain, imports, ok)
  {
  }

  // ----- Which entry is taken -----

  ghost function Rank(source: SourceType): nat {
    match source
    case Local => 0
    case Git => 1
    case Chain => 2
  }

  /** The module has an entry under this source, and none under a source of lower rank. */
  ghost predicate IsFirst(modules: ModulesIndex, id: ModuleId, source: SourceType) {
    id in modules && source in modules[id] && forall other :: other in modules[id] ==> Rank(source) <= Rank(other)
  }

  /** A lookup gives the entry of lowest rank, and nothing when there is no entry. */
  lemma FirstIsTaken(modules: ModulesIndex, id: ModuleId, m: Module)
    ensures GetModule(modules, id) == Some(m) <==> exists source :: IsFirst(modules, id, source) && modules[id][source] == m
    ensures GetModule(modules, id).None? <==> forall source :: id in modules ==> source !in modules[id]
  {
    if id in modules {
      var entry := modules[id];
      assert Local in entry ==> IsFirst(modules, id, Local);
      assert Local !in entry && Git in entry ==> IsFirst(modules, id, Git);
      assert Local !in entry && Git !in entry && Chain in entry ==> IsFirst(modules, id, Chain);
    }
  }

  /** The entries are the same, or the same entry comes first in both. */
  ghost predicate SameFirst(a: ModulesIndex, b: ModulesIndex, id: ModuleId) {
    SameEntry(a, b, id)
    || exists source :: IsFirst(a, id, source) && IsFirst(b, id, source) && a[id][source] == b[id][source]
  }

  lemma SameFirstIsTaken(a: ModulesIndex, b: ModulesIndex, id: ModuleId)
    requires SameFirst(a, b, id)
    ensures GetModule(a, id) == GetModule(b, id)
  {
    if !SameEntry(a, b, id) {
      var source :| IsFirst(a, id, source) && IsFirst(b, id, source) && a[id][source] == b[id][source];
      FirstIsTaken(a, id, a[id][source]);
      FirstIsTaken(b, id, b[id][source]);
    }
  }

  /** Entries behind the first one do not matter: whatever git and chain entries a module has
      beside a local one, or chain entries beside a git one, a resolution succeeds alike and
      adds the same paths. */
  lemma FirstEntriesDecide(a: ModulesIndex, a': ModulesIndex, b: ModulesIndex, b': ModulesIndex, chain: ChainSource,
                           imports: set<ModuleId>, ok: bool, ok': bool, deps: set<Path>, deps': set<Path>, deps'': set<Path>)
    requires Honest(chain) && forall id :: SameFirst(a, b, id)
    requires Closure(a, a', chain, imports, ok, deps, deps') && Closure(b, b', chain, imports, ok', deps, deps'')
    ensures ok == ok' && (ok ==> deps' == deps'')
  {
    hide Honest, GetModule, SameFirst, IndexClosed;
    forall id ensures Lookup(a, chain, id) == Lookup(b, chain, id) {
      SameFirstIsTaken(a, b, id);
    }
    SameLookups(a, b, chain, imports);
    hide Resolvable, PathOfReached;
    if ok {
      forall path ensures path in deps' <==> path in deps'' {
        assert path in deps' <==> path in deps || PathOfReached(a, chain, imports, path);
        assert path in deps'' <==> path in deps || PathOfReached(b, chain, imports, path);
      }
    }
  }

  lemma SameLookups(a: ModulesIndex, b: ModulesIndex, chain: ChainSource, imports: set<ModuleId>)
    requires Honest(chain) && forall id :: Lookup(a, chain, id) == Lookup(b, chain, id)
    ensures Resolvable(a, chain, imports) <==> Resolvable(b, chain, imports)
    ensures forall path :: PathOfReached(a, chain, imports, path) <==> PathOfReached(b, chain, imports, path)
  {
    hide Honest, Lookup, Reaches, Follows;
    forall x, y ensures Follows(a, chain, x, y) <==> Follows(b, chain, x, y) {
      SameFollows(a, b, chain, x, y);
    }
    forall id ensures Reaches(a, chain, imports, id) <==> Reaches(b, chain, imports, id) {
      SameReaches(a, b, chain, imports, id);
    }
  }

  lemma SameFollows(a: ModulesIndex, b: ModulesIndex, chain: ChainSource, x: ModuleId, y: ModuleId)
    requires Honest(chain) && Lookup(a, chain, x) == Lookup(b, chain, x)
    ensures Follows(a, chain, x, y) <==> Follows(b, chain, x, y)
  {
  }

  lemma SameReaches(a: ModulesIndex, b: ModulesIndex, chain: ChainSource, imports: set<ModuleId>, id: ModuleId)
    requires Honest(chain) && forall x, y :: Follows(a, chain, x, y) <==> Follows(b, chain, x, y)
    ensures Reaches(a, chain, imports, id) <==> Reaches(b, chain, imports, id)
  {
    hide Follows;
    forall p ensures IsPath(a, chain, imports, p) <==> IsPath(b, chain, imports, p) {
    }
  }

  // ----- The resolver -----

  class Index {
    var modules: ModulesIndex
    const chain: ChainSource

    constructor (modules: ModulesIndex, chain: ChainSource)
      ensures this.modules == modules && this.chain == chain
    {
      this.modules := modules;
      this.chain := chain;
    }

    method StoreMeta(files: seq<FileMeta>, source: SourceType, depName: string)
      modifies this
      ensures modules == FilesStored(old(modules), files, source, depName)
    {
      assert files[..0] == [];
      for i := 0 to |files|
        invariant modules == FilesStored(old(modules), files[..i], source, depName)
      {
        assert files[..i + 1][..i] == files[..i];
        ghost var before := modules;
        var file := files[i];
        assert file.meta[..0] == [];
        for k := 0 to |file.meta|
          invariant modules == AllStored(before, file.path, file.meta[..k], source, depName)
        {
          assert file.meta[..k + 1][..k] == file.meta[..k];
          var unit := file.meta[k];
          var entry := if unit.moduleId in modules then modules[unit.moduleId] else map[];
          entry := entry[source := Module(unit.moduleId, depName, file.path, source, unit.imports)];
          modules := modules[unit.moduleId := entry];
        }
        assert file.meta[..|file.meta|] == file.meta;
      }
      assert files[..|files|] == files;
    }

    /** Collects the path of an indexed module and of all that it depends on. */
    method Resolve(import_: ModuleId, deps: set<Path>, ghost rank: ModuleId -> nat)
      returns (found: bool, ok: bool, deps': set<Path>)
      requires Honest(chain) && Acyclic(modules, chain, {import_}, rank)
      modifies this
      ensures found == GetModule(old(modules), import_).Some?
      ensures !found ==> ok && modules == old(modules) && deps' == deps
      ensures found ==> Closure(old(modules), modules, chain, {import_}, ok, deps, deps')
      decreases rank(import_), 3
    {
      var m := GetModule(modules, import_);
      if m.None? {
        return false, true, deps;
      }
      ImportsRankBelow(modules, chain, rank, import_);
      ok, deps' := ResolveImports(m.value.dependencies, deps + {m.value.path}, rank, rank(import_));
      FoundCloses(old(modules), modules, chain, import_, ok, deps, deps');
      found := true;
    }

    /** Success means that all that the imports reach is found; then the paths grew by exactly
        those of the reached modules, and these are indexed; entries of other modules, and
        entries that were there before, are unchanged. On acyclic imports it terminates. */
    method ResolveImports(imports: set<ModuleId>, deps: set<Path>, ghost rank: ModuleId -> nat, ghost bound: nat)
      returns (ok: bool, deps': set<Path>)
      requires Honest(chain) && Acyclic(modules, chain, imports, rank)
      requires forall i :: i in imports ==> rank(i) < bound
      modifies this
      ensures Closure(old(modules), modules, chain, imports, ok, deps, deps')
      decreases bound, 1
    {
      hide Closure, Acyclic, Honest;
      ghost var before := modules;
      deps' := deps;
      ok := true;
      var rest := imports;
      NothingToClose(modules, chain, deps);
      assert imports - rest == {};
      while rest != {}
        invariant rest <= imports && Closure(before, modules, chain, imports - rest, true, deps, deps')
        decreases rest
      {
        var import_ :| import_ in rest;
        ghost var now, soFar := modules, deps';
        ClosureGrows(before, modules, chain, imports - rest, true, deps, deps');
        StaysAcyclic(before, modules, chain, imports, rank);
        OneOfThemIsAcyclic(modules, chain, imports, rank, import_);
        ok, deps' := ResolveImport(import_, deps', rank, bound);
        ClosureComposes(before, now, modules, chain, imports - rest, {import_}, ok, deps, soFar, deps');
        assert imports - rest + {import_} == imports - (rest - {import_});
        rest := rest - {import_};
        if !ok {
          FailureSpreads(before, modules, chain, imports - rest, imports, deps, deps');
          return;
        }
      }
      assert imports - {} == imports;
    }

    // The imports of all modules of the fetched files.
    method ResolveMetas(import_: ModuleId, files: seq<FileMeta>, deps: set<Path>, ghost rank: ModuleId -> nat)
      returns (ok: bool, deps': set<Path>)
      requires Honest(chain) && Acyclic(modules, chain, {import_}, rank) && GetModule(modules, import_).None?
      requires chain(import_).Some? && files == chain(import_).value.files
      modifies this
      ensures Closure(old(modules), modules, chain, ChainFile(chain, import_).meta[0].imports, ok, deps, deps')
      decreases rank(import_), 2
    {
      ImportsRankBelow(modules, chain, rank, import_);
      hide Closure, Acyclic;
      ok, deps' := true, deps;
      for i := 0 to |files|
        invariant i == 0 ==> modules == old(modules) && deps' == deps
        invariant i == 1 ==> Closure(old(modules), modules, chain, files[0].meta[0].imports, true, deps, deps')
      {
        for k := 0 to |files[i].meta|
          invariant k == 0 ==> modules == old(modules) && deps' == deps
          invariant k == 1 ==> Closure(old(modules), modules, chain, files[0].meta[0].imports, true, deps, deps')
        {
          ok, deps' := ResolveImports(files[i].meta[k].imports, deps', rank, rank(import_));
          if !ok {
            return;
          }
        }
      }
    }

    // One import: indexed, or fetched from the chain, stored and resolved then.
    method ResolveImport(import_: ModuleId, deps: set<Path>, ghost rank: ModuleId -> nat, ghost bound: nat)
      returns (ok: bool, deps': set<Path>)
      requires Honest(chain) && Acyclic(modules, chain, {import_}, rank) && rank(import_) < bound
      modifies this
      ensures Closure(old(modules), modules, chain, {import_}, ok, deps, deps')
      decreases bound, 0
    {
      hide Closure;
      var found;
      found, ok, deps' := Resolve(import_, deps, rank);
      if found {
        return;
      }
      var fetched := chain(import_);
      if fetched.None? {
        ChainFails(modules, modules, chain, import_, deps, deps);
        return false, deps;
      }
      ghost var m0 := modules;
      ok, deps' := ResolveMetas(import_, fetched.value.files, deps, rank);
      if !ok {
        ChainFails(m0, modules, chain, import_, deps, deps');
        return;
      }
      ghost var m1, deps1 := modules, deps';
      ClosureGrows(m0, m1, chain, ChainFile(chain, import_).meta[0].imports, true, deps, deps1);
      NotYetIndexed(m0, m1, chain, import_, rank, true);
      StoreMeta(fetched.value.files, Chain, fetched.value.depName);
      StoringGrows(m1, chain, import_);
      GrowthComposes(m0, m1, modules, chain);
      StaysAcyclic(m0, modules, chain, {import_}, rank);
      ghost var m2 := modules;
      found, ok, deps' := Resolve(import_, deps', rank);
      FetchedIsFound(m1, m2, chain, import_);
      ChainCloses(m0, m1, m2, modules, chain, import_, ok, deps, deps1, deps');
    }
  }
}
