/**
 * The "Modules" node of a Maven aggregator project: its child factory keeps a
 * cache from module path (as written in the parent POM) to a SubModule entry
 * and reconciles that cache with the POM's module list whenever the children
 * are recomputed; the entries build their tree nodes lazily; two actions edit
 * the POM's module list.
 *
 * The IDE is abstracted by a Host value: how a module path resolves to a Maven
 * project, which projects are open, and the Maven model (packaging and module
 * list) of each project.
 */
module ModulesNode {
  import opened Wrappers

  /** NbMavenProject.TYPE_POM, the packaging of an aggregator. */
  const TYPE_POM: string := "pom"
  /** OpenProjects.PROPERTY_OPEN_PROJECTS, the event fired when the open projects change. */
  const PROPERTY_OPEN_PROJECTS: string := "openProjects"
  /** NbMavenProject.PROP_PROJECT, the event fired when a project's Maven model is reloaded. */
  const PROP_PROJECT: string := "MavenProject"

  /** A Maven project, identified as the project manager identifies it: by its directory. */
  datatype ProjectId = ProjectId(dir: string)

  /** The part of a project's Maven model read here. */
  datatype Pom = Pom(packaging: string, modules: seq<string>)

  /** The IDE services the factory consults. */
  datatype Host = Host(
    /** findModuleProject: the Maven project a module path of the given parent resolves to, if any. */
    find: (ProjectId, string) -> Option<ProjectId>,
    /** The projects open in the IDE. */
    open: set<ProjectId>,
    /** getOriginalMavenProject. */
    pom: ProjectId -> Pom)

  /** A sub-module is itself an aggregator when it is pom-packaged and lists modules. */
  predicate IsAggregator(pom: Pom)
  {
    pom.packaging == TYPE_POM && |pom.modules| > 0
  }

  // ---------------------------------------------------------------------------
  // Tree nodes
  // ---------------------------------------------------------------------------

  /** The path finder placed in a node's lookup. */
  datatype Finder = ModulesFinder | SubProjectFinder

  /** What a closed module's node shows below it. */
  datatype NodeChildren = ModulesChildren(of: ProjectId) | Leaf

  /** The node's lookup: a path finder and the module's project. */
  datatype NodeLookup = NodeLookup(finder: Finder, project: ProjectId)

  /** An open module shows its own logical view; a closed one a filtered view with open/remove actions. */
  datatype NodeKind =
    | OpenProjectFilter(lookup: NodeLookup)
    | ClosedProjectFilter(children: NodeChildren, lookup: NodeLookup, parent: ProjectId, subProject: ProjectId)

  /** A node object; its identity is what the tree keeps. */
  class ModuleNode {
    const kind: NodeKind

    constructor (kind: NodeKind)
      ensures this.kind == kind
    {
      this.kind := kind;
    }
  }

  // ---------------------------------------------------------------------------
  // Cache entries
  // ---------------------------------------------------------------------------

  class SubModule {
    const parent: ProjectId
    const proj: ProjectId
    /** Whether the module was open when the entry was made. */
    const isOpen: bool
    const isAggregator: bool
    var lazyNode: ModuleNode?

    constructor (parent: ProjectId, subProject: ProjectId, host: Host)
      ensures this.parent == parent && proj == subProject
      ensures isOpen == (subProject in host.open)
      ensures isAggregator == IsAggregator(host.pom(subProject))
      ensures lazyNode == null
    {
      this.parent := parent;
      proj := subProject;
      isOpen := subProject in host.open;
      isAggregator := IsAggregator(host.pom(subProject));
      lazyNode := null;
    }

    /** The entry no longer describes the resolved project: another project, or its open state flipped. */
    predicate IsChanged(resolved: ProjectId, open: set<ProjectId>)
    {
      resolved != proj || (proj in open) != isOpen
    }

    /** p has just been nowOpen while this entry still records its project as closed. */
    predicate IsClosedOpenProject(p: ProjectId)
    {
      proj == p && !isOpen
    }

    /** This entry records its project as open but it is no longer among the nowOpen ones. */
    predicate IsOpenClosedProject(nowOpen: set<ProjectId>)
    {
      proj !in nowOpen && isOpen
    }

    /** The node this entry stands for, as getModuleNode builds it. */
    function NodeKindFor(): NodeKind
    {
      var lookup := NodeLookup(if isAggregator then ModulesFinder else SubProjectFinder, proj);
      if isOpen then OpenProjectFilter(lookup)
      else ClosedProjectFilter(if isAggregator then ModulesChildren(proj) else Leaf, lookup, parent, proj)
    }

    /** A cached node is always the one this entry stands for. */
    ghost predicate Valid()
      reads this
    {
      lazyNode != null ==> lazyNode.kind == NodeKindFor()
    }

    /** getModuleNode: builds the node on first use and returns the same object afterwards. */
    method GetModuleNode() returns (node: ModuleNode)
      requires Valid()
      modifies this`lazyNode
      ensures Valid()
      ensures lazyNode == node
      ensures node.kind == NodeKindFor()
      ensures old(lazyNode) != null ==> node == old(lazyNode)
      ensures old(lazyNode) == null ==> fresh(node)
    {
      if lazyNode == null {
        lazyNode := new ModuleNode(NodeKindFor());
      }
      node := lazyNode;
    }
  }

  /** Two calls of getModuleNode give the same node object. */
  method GetModuleNodeTwice(e: SubModule) returns (first: ModuleNode, second: ModuleNode)
    requires e.Valid()
    modifies e`lazyNode
    ensures first == second && first.kind == e.NodeKindFor()
  {
    first := e.GetModuleNode();
    second := e.GetModuleNode();
  }

  /** e records what a new SubModule(parent, p) records now. */
  predicate Describes(e: SubModule, parent: ProjectId, p: ProjectId, host: Host)
  {
    && e.parent == parent && e.proj == p
    && e.isOpen == (p in host.open)
    && e.isAggregator == IsAggregator(host.pom(p))
  }

  /**
   * isChanged is false exactly when the entry already records what a new
   * entry for the project would record about identity and open state.
   */
  lemma IsChangedIffDiffersFromNewEntry(e: SubModule, made: SubModule, parent: ProjectId, p: ProjectId, host: Host)
    requires Describes(made, parent, p, host)
    ensures !e.IsChanged(p, host.open) <==> (e.proj == made.proj && e.isOpen == made.isOpen)
  {
  }

  // ---------------------------------------------------------------------------
  // Reconciliation of the cache with the POM's module list
  // ---------------------------------------------------------------------------

  /** The module paths of parent that resolve to a Maven project. */
  function ResolvedPaths(paths: seq<string>, parent: ProjectId, host: Host): set<string>
  {
    set m | m in paths && host.find(parent, m).Some?
  }

  /** Going one path further along the list adds that path when it resolves. */
  lemma ResolvedPathsStep(paths: seq<string>, i: nat, parent: ProjectId, host: Host)
    requires i < |paths|
    ensures ResolvedPaths(paths[..i + 1], parent, host) ==
            ResolvedPaths(paths[..i], parent, host) + (if host.find(parent, paths[i]).Some? then {paths[i]} else {})
  {
    assert paths[..i + 1] == paths[..i] + [paths[i]];
  }

  /** The listed paths present in the map, in list order, with repetitions. */
  function PathsIn<V>(paths: seq<string>, m: map<string, V>): seq<string>
  {
    if |paths| == 0 then []
    else PathsIn(paths[..|paths| - 1], m) + (if paths[|paths| - 1] in m then [paths[|paths| - 1]] else [])
  }

  /** The keys createKeys appends: one map entry per listed path present in the map, in list order. */
  function KeysInOrder(paths: seq<string>, m: map<string, SubModule>): seq<SubModule>
  {
    if |paths| == 0 then []
    else KeysInOrder(paths[..|paths| - 1], m) + (if paths[|paths| - 1] in m then [m[paths[|paths| - 1]]] else [])
  }

  /** The i-th key is the entry of the i-th listed path that is present. */
  lemma {:induction false} KeysFollowPaths(paths: seq<string>, m: map<string, SubModule>)
    ensures |KeysInOrder(paths, m)| == |PathsIn(paths, m)|
    ensures forall i :: 0 <= i < |PathsIn(paths, m)| ==>
              PathsIn(paths, m)[i] in m && KeysInOrder(paths, m)[i] == m[PathsIn(paths, m)[i]]
  {
    if |paths| > 0 {
      KeysFollowPaths(paths[..|paths| - 1], m);
    }
  }

  /** Each path present in the map is kept as often as it is listed; the others are dropped. */
  lemma {:induction false} PathsInCounts<V>(paths: seq<string>, m: map<string, V>, x: string)
    ensures multiset(PathsIn(paths, m))[x] == if x in m then multiset(paths)[x] else 0
  {
    if |paths| > 0 {
      var init, last := paths[..|paths| - 1], paths[|paths| - 1];
      PathsInCounts(init, m, x);
      assert paths == init + [last];
    }
  }

  /** When the map's keys are exactly the resolved paths, createKeys skips exactly the unresolved ones. */
  lemma {:induction false} PathsInResolved<V>(paths: seq<string>, all: seq<string>, parent: ProjectId, host: Host, m: map<string, V>)
    requires m.Keys == ResolvedPaths(all, parent, host)
    requires forall x :: x in paths ==> x in all
    ensures forall x :: x in PathsIn(paths, m) <==> x in paths && host.find(parent, x).Some?
  {
    if |paths| > 0 {
      var init, last := paths[..|paths| - 1], paths[|paths| - 1];
      assert paths == init + [last];
      PathsInResolved(init, all, parent, host, m);
    }
  }

  /** An event delivered to the factory's listeners. */
  datatype EventValue = ProjectArray(projects: seq<ProjectId>) | OtherValue

  /**
   * The open-projects listener's reload condition for the new open projects vv:
   * some project in vv is cached as closed, or some entry cached as open is not in vv.
   */
  ghost predicate ReloadWanted(vv: seq<ProjectId>, entries: set<SubModule>)
  {
    || (exists p, e :: p in vv && e in entries && e.IsClosedOpenProject(p))
    || (exists e :: e in entries && e.IsOpenClosedProject(set p | p in vv))
  }

  /**
   * The listener reloads exactly when some cached entry would be reported
   * changed by isChanged under the new open set: the two checks together
   * catch every stale open state.
   */
  lemma ReloadWantedIffSomeEntryStale(vv: seq<ProjectId>, entries: set<SubModule>)
    ensures ReloadWanted(vv, entries) <==> exists e :: e in entries && e.IsChanged(e.proj, set p | p in vv)
  {
    var nowOpen := set p | p in vv;
    if exists e :: e in entries && e.IsChanged(e.proj, nowOpen) {
      var e :| e in entries && e.IsChanged(e.proj, nowOpen);
      if e.isOpen {
        assert e.IsOpenClosedProject(nowOpen);
      } else {
        assert e.proj in vv && e.IsClosedOpenProject(e.proj);
      }
    }
  }

  class ModulesChildFactory {
    /** The aggregator whose modules are listed. */
    const project: ProjectId
    var modules: map<string, SubModule>
    var modulesLoaded: bool

    constructor (proj: ProjectId)
      ensures project == proj && modules == map[] && !modulesLoaded
    {
      project := proj;
      modules := map[];
      modulesLoaded := false;
    }

    /** Every cached entry belongs to this factory's project and caches only its own node. */
    ghost predicate Valid()
      reads this, modules.Values
    {
      forall k :: k in modules ==> modules[k].parent == project && modules[k].Valid()
    }

    /** The parent POM's module list. */
    function Descriptor(host: Host): seq<string>
    {
      host.pom(project).modules
    }

    /** Reconciliation keeps the entry cached at k when it still describes the project k resolves to. */
    predicate Kept(before: map<string, SubModule>, k: string, resolved: ProjectId, host: Host)
    {
      k in before && !before[k].IsChanged(resolved, host.open)
    }

    /**
     * e is what reconciliation leaves at path k: it records the project k resolves
     * to and that project's current open state, and it is the entry cached before
     * (whose node survives) when that one was kept, a new entry otherwise.
     */
    predicate EntryFor(before: map<string, SubModule>, k: string, e: SubModule, host: Host)
    {
      && host.find(project, k) == Some(e.proj)
      && e.isOpen == (e.proj in host.open)
      && (Kept(before, k, e.proj, host) ==> e == before[k])
      && (!Kept(before, k, e.proj, host) ==> Describes(e, project, e.proj, host))
    }

    /**
     * The cache after a reconciliation against host: exactly the resolvable
     * listed paths are keys, and each entry is the kept one or a newly made one.
     */
    twostate predicate Reconciled(host: Host)
      reads this, modules.Values
    {
      && modules.Keys == ResolvedPaths(Descriptor(host), project, host)
      && (forall k :: k in modules ==> EntryFor(old(modules), k, modules[k], host))
      && (forall k :: k in modules && !Kept(old(modules), k, modules[k].proj, host) ==>
            fresh(modules[k]) && modules[k].lazyNode == null)
    }

    /** refreshModules: reconcile the cache with the POM unless it is already loaded. */
    method RefreshModules(host: Host)
      requires Valid()
      modifies this
      ensures Valid() && modulesLoaded
      ensures old(modulesLoaded) ==> modules == old(modules)
      ensures !old(modulesLoaded) ==> Reconciled(host)
    {
      if modulesLoaded {
        return;
      }
      var modulesToRemove := ReconcileListedPaths(host);
      RemovePaths(modulesToRemove);
      modulesLoaded := true;
    }

    /**
     * How far the first loop of refreshModules has got after i listed paths,
     * with m the cache: done holds the resolvable paths seen so far, each of
     * them reconciled; every other key still has its entry from before;
     * modulesToRemove holds the cached paths not yet seen; created holds the
     * entries made so far.
     */
    ghost predicate Progress(m: map<string, SubModule>, before: map<string, SubModule>, paths: seq<string>, i: int,
                       done: set<string>, modulesToRemove: set<string>, created: set<SubModule>, host: Host)
    {
      && 0 <= i <= |paths|
      && done == ResolvedPaths(paths[..i], project, host)
      && (forall k :: k in m <==> k in before || k in done)
      && modulesToRemove == before.Keys - done
      && (forall k :: k in m && k !in done ==> m[k] == before[k])
      && (forall k :: k in done ==> EntryFor(before, k, m[k], host))
      && (forall k :: k in done && !Kept(before, k, m[k].proj, host) ==> m[k] in created)
    }

    /**
     * The first loop of refreshModules: walk the POM's module list, keep or
     * replace the entry of each resolvable path, and return the cached paths
     * the list no longer resolves.
     */
    method ReconcileListedPaths(host: Host) returns (modulesToRemove: set<string>)
      requires Valid()
      modifies this`modules
      ensures Valid()
      ensures forall k :: k in modules <==> k in ResolvedPaths(Descriptor(host), project, host) || k in modulesToRemove
      ensures modulesToRemove == old(modules).Keys - ResolvedPaths(Descriptor(host), project, host)
      ensures forall k :: k in modules && k in modulesToRemove ==> modules[k] == old(modules)[k]
      ensures forall k :: k in ResolvedPaths(Descriptor(host), project, host) ==>
                EntryFor(old(modules), k, modules[k], host)
      ensures forall k :: k in ResolvedPaths(Descriptor(host), project, host) && !Kept(old(modules), k, modules[k].proj, host) ==>
                fresh(modules[k]) && modules[k].lazyNode == null
    {
      ghost var before := modules;
      var paths := Descriptor(host);
      modulesToRemove := modules.Keys;
      ghost var done: set<string> := {};
      ghost var created: set<SubModule> := {};
      var i := 0;
      while i < |paths|
        invariant Progress(modules, before, paths, i, done, modulesToRemove, created, host)
        invariant forall o :: o in created ==> fresh(o) && o.lazyNode == null
      {
        modulesToRemove, done, created := ReconcilePath(paths, i, host, before, done, modulesToRemove, created);
        i := i + 1;
      }
      assert paths[..i] == paths;
    }

    /**
     * One step of the first loop of refreshModules: keep, replace or add the
     * entry for the i-th listed path.
     */
    method ReconcilePath(paths: seq<string>, i: int, host: Host, ghost before: map<string, SubModule>,
                         ghost done: set<string>, modulesToRemove: set<string>, ghost created: set<SubModule>)
      returns (toRemove: set<string>, ghost done': set<string>, ghost created': set<SubModule>)
      requires i < |paths|
      requires Progress(modules, before, paths, i, done, modulesToRemove, created, host)
      modifies this`modules
      ensures Progress(modules, before, paths, i + 1, done', toRemove, created', host)
      ensures forall o :: o in created' ==> o in created || (fresh(o) && o.lazyNode == null)
      ensures host.find(project, paths[i]).None? ==> modules == old(modules) && toRemove == modulesToRemove
      ensures host.find(project, paths[i]).Some? && paths[i] in old(modules)
              && !old(modules)[paths[i]].IsChanged(host.find(project, paths[i]).value, host.open) ==>
                modules == old(modules) && toRemove == modulesToRemove - {paths[i]}
      ensures host.find(project, paths[i]).Some?
              && !(paths[i] in old(modules)
                   && !old(modules)[paths[i]].IsChanged(host.find(project, paths[i]).value, host.open)) ==>
                && paths[i] in modules
                && fresh(modules[paths[i]]) && modules[paths[i]].lazyNode == null
                && Describes(modules[paths[i]], project, host.find(project, paths[i]).value, host)
                && modules == old(modules)[paths[i] := modules[paths[i]]]
                && toRemove == modulesToRemove - {paths[i]}
    {
      var path := paths[i];
      toRemove, done', created' := modulesToRemove, done, created;
      var prj := host.find(project, path);
      if prj.Some? {
        if path in modules {
          toRemove := toRemove - {path};
          if modules[path].IsChanged(prj.value, host.open) {
            var e := new SubModule(project, prj.value, host);
            ProgressPut(modules, e, before, paths, i, done, modulesToRemove, created, host);
            modules := modules[path := e];
            created' := created' + {e};
          } else {
            ProgressKeep(modules, before, paths, i, done, modulesToRemove, created, host);
          }
        } else {
          var e := new SubModule(project, prj.value, host);
          ProgressPut(modules, e, before, paths, i, done, modulesToRemove, created, host);
          modules := modules[path := e];
          created' := created' + {e};
        }
        done' := done' + {path};
      } else {
        ResolvedPathsStep(paths, i, project, host);
      }
    }

    /** A resolvable path whose cached entry is unchanged keeps that entry. */
    lemma ProgressKeep(m: map<string, SubModule>, before: map<string, SubModule>, paths: seq<string>, i: int,
                       done: set<string>, modulesToRemove: set<string>, created: set<SubModule>, host: Host)
      requires i < |paths| && Progress(m, before, paths, i, done, modulesToRemove, created, host)
      requires host.find(project, paths[i]).Some?
      requires paths[i] in m && !m[paths[i]].IsChanged(host.find(project, paths[i]).value, host.open)
      ensures Progress(m, before, paths, i + 1, done + {paths[i]}, modulesToRemove - {paths[i]}, created, host)
    {
      ResolvedPathsStep(paths, i, project, host);
    }

    /** A resolvable path that is not cached, or whose entry changed, gets the new entry e. */
    lemma ProgressPut(m: map<string, SubModule>, e: SubModule, before: map<string, SubModule>, paths: seq<string>, i: int,
                      done: set<string>, modulesToRemove: set<string>, created: set<SubModule>, host: Host)
      requires i < |paths| && Progress(m, before, paths, i, done, modulesToRemove, created, host)
      requires host.find(project, paths[i]).Some?
      requires !(paths[i] in m && !m[paths[i]].IsChanged(host.find(project, paths[i]).value, host.open))
      requires Describes(e, project, host.find(project, paths[i]).value, host)
      ensures Progress(m[paths[i] := e], before, paths, i + 1, done + {paths[i]},
                       if paths[i] in m then modulesToRemove - {paths[i]} else modulesToRemove, created + {e}, host)
    {
      ResolvedPathsStep(paths, i, project, host);
    }

    /** The second loop of refreshModules: drop the given paths from the cache. */
    method RemovePaths(modulesToRemove: set<string>)
      modifies this`modules
      ensures modules.Keys == old(modules).Keys - modulesToRemove
      ensures forall k :: k in modules ==> modules[k] == old(modules)[k]
    {
      var rest := modulesToRemove;
      while rest != {}
        invariant rest <= modulesToRemove
        invariant modules.Keys == old(modules).Keys - (modulesToRemove - rest)
        invariant forall k :: k in modules ==> modules[k] == old(modules)[k]
        decreases rest
      {
        var path :| path in rest;
        modules := modules - {path};
        rest := rest - {path};
      }
    }

    /** reloadModules: forget that the cache is loaded, so the next refresh reconciles it. */
    method ReloadModules()
      modifies this`modulesLoaded
      ensures !modulesLoaded
    {
      modulesLoaded := false;
    }

    /** createKeys: reconcile, then append one key per listed path that has an entry, in list order. */
    method CreateKeys(host: Host, keys: seq<SubModule>) returns (result: seq<SubModule>, complete: bool)
      requires Valid()
      modifies this
      ensures Valid() && modulesLoaded && complete
      ensures old(modulesLoaded) ==> modules == old(modules)
      ensures !old(modulesLoaded) ==> Reconciled(host)
      ensures result == keys + KeysInOrder(Descriptor(host), modules)
    {
      RefreshModules(host);
      var paths := Descriptor(host);
      result := keys;
      var i := 0;
      while i < |paths|
        invariant 0 <= i <= |paths|
        invariant result == keys + KeysInOrder(paths[..i], modules)
      {
        var path := paths[i];
        assert paths[..i + 1][..i] == paths[..i];
        if path in modules {
          result := result + [modules[path]];
        }
        i := i + 1;
      }
      assert paths[..i] == paths;
      return result, true;
    }

    /** createNodeForKey: the entry's lazily built node. */
    method CreateNodeForKey(wr: SubModule) returns (node: ModuleNode)
      requires wr.Valid()
      modifies wr`lazyNode
      ensures wr.Valid() && node == wr.lazyNode && node.kind == wr.NodeKindFor()
      ensures old(wr.lazyNode) != null ==> node == old(wr.lazyNode)
    {
      node := wr.GetModuleNode();
    }

    /** The loops of the open-projects listener: does the new open set vv call for a reload? */
    method NeedsReload(vv: seq<ProjectId>) returns (reload: bool)
      ensures reload <==> ReloadWanted(vv, modules.Values)
    {
      var vvSet: set<ProjectId> := {};
      var i := 0;
      while i < |vv|
        invariant 0 <= i <= |vv|
        invariant vvSet == set j | 0 <= j < i :: vv[j]
        invariant forall j, e :: 0 <= j < i && e in modules.Values ==> !e.IsClosedOpenProject(vv[j])
      {
        var p := vv[i];
        vvSet := vvSet + {p};
        var rest := modules.Values;
        while rest != {}
          invariant rest <= modules.Values
          invariant forall e :: e in modules.Values - rest ==> !e.IsClosedOpenProject(p)
          decreases rest
        {
          var e :| e in rest;
          if e.IsClosedOpenProject(p) {
            return true;
          }
          rest := rest - {e};
        }
        i := i + 1;
      }
      assert vvSet == set p | p in vv;
      var rest := modules.Values;
      while rest != {}
        invariant rest <= modules.Values
        invariant forall e :: e in modules.Values - rest ==> !e.IsOpenClosedProject(vvSet)
        decreases rest
      {
        var e :| e in rest;
        if e.IsOpenClosedProject(vvSet) {
          return true;
        }
        rest := rest - {e};
      }
      return false;
    }

    /** The open-projects listener: ignores other events, reloads when an entry's open state went stale. */
    method ModulesListener(propertyName: string, newValue: EventValue) returns (reloaded: bool)
      modifies this`modulesLoaded
      ensures reloaded <==> propertyName == PROPERTY_OPEN_PROJECTS && newValue.ProjectArray?
                            && ReloadWanted(newValue.projects, modules.Values)
      ensures modulesLoaded == (if reloaded then false else old(modulesLoaded))
    {
      reloaded := false;
      if propertyName != PROPERTY_OPEN_PROJECTS {
        return;
      }
      if !newValue.ProjectArray? {
        return;
      }
      reloaded := NeedsReload(newValue.projects);
      if reloaded {
        ReloadModules();
      }
    }

    /** The project listener: a reload of the parent's Maven model invalidates the cache. */
    method ProjectListener(propertyName: string)
      modifies this`modulesLoaded
      ensures modulesLoaded == (if propertyName == PROP_PROJECT then false else old(modulesLoaded))
    {
      if propertyName == PROP_PROJECT {
        ReloadModules();
      }
    }
  }

  /**
   * A reconciliation right after another one against the same host keeps
   * every entry, so every cached node survives.
   */
  method ReconcileTwice(f: ModulesChildFactory, host: Host) returns (first: map<string, SubModule>)
    requires f.Valid()
    modifies f
    ensures f.modulesLoaded && f.Valid()
    ensures first.Keys == ResolvedPaths(f.Descriptor(host), f.project, host)
    ensures f.modules == first
  {
    f.ReloadModules();
    f.RefreshModules(host);
    first := f.modules;
    f.ReloadModules();
    f.RefreshModules(host);
  }
}
