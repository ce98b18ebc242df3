# Maven Modules node and the javadoc-skip run check, in Dafny

This project models two pieces of the NetBeans Maven integration.

**The "Modules" node of an aggregator project** (`ModulesNode.java`).
- Its child factory, `ModulesChildFactory`, keeps a cache `modules` that maps each module path (as written in the parent POM) to a `SubModule` entry. It also keeps a `modulesLoaded` flag.
- `refreshModules` reconciles the cache with the POM's module list:
  - an entry is kept while its path resolves to the same project with the same open state;
  - otherwise a new entry replaces it;
  - a path that newly resolves gets a new entry;
  - paths that no longer resolve are dropped.
- `createKeys` lists the cached entries in POM order.
- Two listeners can invalidate the cache:
  - one fires when the parent's Maven model is reloaded;
  - one fires when the set of open projects changes.
- Each entry builds its tree node lazily and then keeps it.
- Two actions edit the POM's module list: "Add Existing Module..." and "Remove Module".

**`JavaDocChecker.checkRunConfig`**.
- When the IDE-wide "skip javadoc" setting is on, no goal of the run mentions javadoc, and `maven.javadoc.skip` is unset, it sets that property to `"true"`.
- It always lets the run proceed.

Layout:
- `wrappers.dfy`: `Option`, which stands for a Java reference that may be null.
- `modules_node.dfy`, module `ModulesNode`:
  - the `Host` abstraction;
  - the `ModuleNode` and `SubModule` classes;
  - the `ModulesChildFactory` class, with the reconciliation, the key listing and the listeners.
- `module_list_edits.dfy`, module `ModuleListEdits`: the two module-list edits.
- `javadoc_checker.dfy`, module `JavaDocChecker`: the run-configuration rule.

The IDE services become parameters.
- A `Host` value stands for them:
  - `find` is `findModuleProject`, a partial function from a parent project and a module path to a project;
  - `open` is the set of open projects;
  - `pom` gives each project's Maven model (packaging and module list).
- The chooser's result, path relativisation and path resolution are given functions.
- The global settings lookup is a boolean parameter.

The main results:
- `ModulesChildFactory.RefreshModules`:
  - changes nothing when the cache is already loaded;
  - otherwise, its key set is exactly the resolvable listed paths;
  - every kept entry is the very object cached before, so its node survives;
  - every other entry is new and describes the project its path now resolves to.
- `CreateKeys` produces one key per listed path present in the cache, in POM order. A duplicated path gives a duplicated key.
- The lemmas about `KeysInOrder` connect that list to the resolvable paths.
- The open-projects listener's two loops reload exactly when some entry's recorded open state is stale.
- `CheckRunConfig` equals a function whose cases are proved one by one. The rendering test `String.valueOf(goals).contains("javadoc")` is proved equal to "some goal contains javadoc".

## Model

| member | source | states |
|---|---|---|
| ModulesNode.SubModule.constructor | java/maven/src/org/netbeans/modules/maven/nodes/ModulesNode.java:122-130 | An entry records its parent and project. It records whether the project is open now. Its aggregator flag holds exactly when the project is pom-packaged with a non-empty module list. It starts with no node. |
| ModulesNode.IsAggregator | java/maven/src/org/netbeans/modules/maven/nodes/ModulesNode.java:127 | A project is an aggregator exactly when it is pom-packaged and its module list is non-empty. The SubModule constructor's contract records this flag. |
| ModulesNode.SubModule.IsChanged | java/maven/src/org/netbeans/modules/maven/nodes/ModulesNode.java:132-135 | The entry is changed when the resolved project differs from the recorded one, or when the project's current open state differs from the recorded one. IsChangedIffDiffersFromNewEntry is its partner lemma. |
| ModulesNode.SubModule.IsClosedOpenProject | java/maven/src/org/netbeans/modules/maven/nodes/ModulesNode.java:137-139 | The entry is for the given project and recorded it as closed. ReloadWantedIffSomeEntryStale is its partner lemma. |
| ModulesNode.SubModule.IsOpenClosedProject | java/maven/src/org/netbeans/modules/maven/nodes/ModulesNode.java:141-143 | The entry recorded its project as open, but the project is not in the given open set. ReloadWantedIffSomeEntryStale is its partner lemma. |
| ModulesNode.SubModule.GetModuleNode | java/maven/src/org/netbeans/modules/maven/nodes/ModulesNode.java:145-156 | The first call builds a fresh node. Later calls return the cached object. The node is an open-project view when the entry is open. Otherwise it is a closed-project view whose children are the module list when the project is an aggregator and a leaf otherwise. Its finder depends on the aggregator flag. |
| ModulesNode.GetModuleNodeTwice | java/maven/src/org/netbeans/modules/maven/nodes/ModulesNode.java:145-156 | Two calls of getModuleNode give the same node object. |
| ModulesNode.IsChangedIffDiffersFromNewEntry | java/maven/src/org/netbeans/modules/maven/nodes/ModulesNode.java:132-135 | isChanged is false exactly when a new entry for the resolved project would record the same project and the same open state. |
| ModulesNode.ReloadWantedIffSomeEntryStale | java/maven/src/org/netbeans/modules/maven/nodes/ModulesNode.java:137-143 | The listener asks two things: does some new open project have an entry cached as closed, and does some entry cached as open lack a project in the new open set. Together they hold exactly when some entry's isChanged is true under the new open set. |
| ModulesNode.ResolvedPathsStep | java/maven/src/org/netbeans/modules/maven/nodes/ModulesNode.java:224-226 | Taking one more listed path adds it to the resolvable paths exactly when findModuleProject resolves it. |
| ModulesNode.KeysFollowPaths | java/maven/src/org/netbeans/modules/maven/nodes/ModulesNode.java:280-284 | The i-th appended key is the cache entry of the i-th listed path present in the cache. |
| ModulesNode.PathsInCounts | java/maven/src/org/netbeans/modules/maven/nodes/ModulesNode.java:280-284 | A path present in the cache is kept as often as it is listed, so duplicates give duplicate keys. Other paths are dropped. |
| ModulesNode.PathsInResolved | java/maven/src/org/netbeans/modules/maven/nodes/ModulesNode.java:223-240 | After a reconciliation, the listed paths that get keys are exactly the listed paths that resolve. |
| ModulesNode.ModulesChildFactory.constructor | java/maven/src/org/netbeans/modules/maven/nodes/ModulesNode.java:163-170 | A new factory has an empty cache that is not loaded. |
| ModulesNode.ModulesChildFactory.RefreshModules | java/maven/src/org/netbeans/modules/maven/nodes/ModulesNode.java:218-243 | If the cache is loaded, the map is untouched. Otherwise the keys become exactly the resolvable listed paths. An entry is kept as the same object when it records the resolved project and its open state is unchanged. Otherwise it is a fresh entry without a node that describes the resolved project. The flag ends true, and the entry invariant is preserved. |
| ModulesNode.ModulesChildFactory.ReconcileListedPaths | java/maven/src/org/netbeans/modules/maven/nodes/ModulesNode.java:223-236 | The first loop returns the previously cached paths that no longer resolve. Every resolvable listed path then holds its reconciled entry. No other key changes. |
| ModulesNode.ModulesChildFactory.ReconcilePath | java/maven/src/org/netbeans/modules/maven/nodes/ModulesNode.java:225-235 | One iteration, which keeps the loop invariant one path further. An unresolvable path leaves the map and the removal set as they were. A resolvable path is taken out of the removal set. If that path is cached and isChanged is false, the map is unchanged. Otherwise only that path's entry is set, to a fresh entry without a node that describes the resolved project. |
| ModulesNode.ModulesChildFactory.ProgressKeep | java/maven/src/org/netbeans/modules/maven/nodes/ModulesNode.java:227-229 | Keeping an unchanged entry preserves the loop invariant one path further. |
| ModulesNode.ModulesChildFactory.ProgressPut | java/maven/src/org/netbeans/modules/maven/nodes/ModulesNode.java:229-233 | Putting a new entry for a changed or uncached path preserves the loop invariant one path further. |
| ModulesNode.ModulesChildFactory.RemovePaths | java/maven/src/org/netbeans/modules/maven/nodes/ModulesNode.java:238-240 | The second loop removes exactly the given paths and leaves the other entries as they were. |
| ModulesNode.ModulesChildFactory.ReloadModules | java/maven/src/org/netbeans/modules/maven/nodes/ModulesNode.java:213-216 | The cache is marked not loaded. |
| ModulesNode.ModulesChildFactory.CreateKeys | java/maven/src/org/netbeans/modules/maven/nodes/ModulesNode.java:277-286 | It refreshes first, with RefreshModules' guarantees. The result is the given keys followed by one entry per listed path present in the cache, in list order. It reports completion. |
| ModulesNode.ModulesChildFactory.CreateNodeForKey | java/maven/src/org/netbeans/modules/maven/nodes/ModulesNode.java:288-291 | The node for a key is the entry's lazily built node, and an already built node is reused. |
| ModulesNode.ModulesChildFactory.NeedsReload | java/maven/src/org/netbeans/modules/maven/nodes/ModulesNode.java:186-206 | The listener's nested loops with early returns answer true exactly when the reload condition holds for the new open projects and the cached entries. |
| ModulesNode.ModulesChildFactory.ModulesListener | java/maven/src/org/netbeans/modules/maven/nodes/ModulesNode.java:177-207 | Events with another property name or a value that is not a project array are ignored. Otherwise it reloads exactly when the reload condition holds. Only a reload clears the loaded flag. |
| ModulesNode.ModulesChildFactory.ProjectListener | java/maven/src/org/netbeans/modules/maven/nodes/ModulesNode.java:172-176 | A Maven-model reload event clears the loaded flag. Other events leave it alone. |
| ModulesNode.ReconcileTwice | java/maven/src/org/netbeans/modules/maven/nodes/ModulesNode.java:218-243 | Reconciling twice in a row against the same IDE state leaves the cache identical to the first result, so every entry and its node survive. |
| ModuleListEdits.SelectedModules | java/maven/src/org/netbeans/modules/maven/nodes/ModulesNode.java:405-411 | The paths taken from the chosen directories: each one relativised, in order, without failed relativisations or ".". SelectedModulesCounts and NothingSelected are its partner lemmas, and CollectModules is proved against it. |
| ModuleListEdits.CollectModules | java/maven/src/org/netbeans/modules/maven/nodes/ModulesNode.java:405-411 | The collected paths are the chosen directories relativised, in order, without failed relativisations or ".". |
| ModuleListEdits.SelectedModulesCounts | java/maven/src/org/netbeans/modules/maven/nodes/ModulesNode.java:405-411 | Every relativised path other than "." is collected as often as it arises, and nothing else is collected. |
| ModuleListEdits.NothingSelected | java/maven/src/org/netbeans/modules/maven/nodes/ModulesNode.java:405-414 | Nothing is collected exactly when every chosen directory relativises to nothing or to ".". |
| ModuleListEdits.AddModules | java/maven/src/org/netbeans/modules/maven/nodes/ModulesNode.java:398-421 | A cancelled chooser or an empty collection makes no edit. Otherwise the collected paths are appended to the module list in order. |
| ModuleListEdits.FirstResolvingTo | java/maven/src/org/netbeans/modules/maven/nodes/ModulesNode.java:349-353 | It returns the index of the first listed path that resolves to the module's directory, or reports that none does. |
| ModuleListEdits.RemoveFirstAt | java/maven/src/org/netbeans/modules/maven/nodes/ModulesNode.java:354 | Removing the first occurrence of the path at an index where it occurs first removes exactly that index. |
| ModuleListEdits.RemoveModule | java/maven/src/org/netbeans/modules/maven/nodes/ModulesNode.java:347-358 | A POM without a module list is left alone. Otherwise exactly the first path that resolves to the module's directory is removed. With no such path the list is unchanged. |
| JavaDocChecker.ContainsAcrossSeparator | java/maven/src/org/netbeans/modules/maven/JavaDocChecker.java:41 | A non-empty word occurs in a + b + c exactly when it occurs in a or in c, provided b is non-empty and shares no character with the word. |
| JavaDocChecker.ContainsInJoin | java/maven/src/org/netbeans/modules/maven/JavaDocChecker.java:41 | A non-empty word free of ',' and ' ' occurs in the ", "-joined goals exactly when it occurs in one goal. |
| JavaDocChecker.RenderedGoalsMentionJavadoc | java/maven/src/org/netbeans/modules/maven/JavaDocChecker.java:41 | String.valueOf of the goal list contains "javadoc" exactly when the list is non-null and some goal contains "javadoc". |
| JavaDocChecker.CheckedProperties | java/maven/src/org/netbeans/modules/maven/JavaDocChecker.java:37-46 | The properties are unchanged when the setting is off, when the goals mention javadoc, or when maven.javadoc.skip is already set. Otherwise exactly maven.javadoc.skip is added, with value "true". No existing property changes. |
| JavaDocChecker.CheckIsIdempotent | java/maven/src/org/netbeans/modules/maven/JavaDocChecker.java:42-43 | Running the check on its own result changes nothing more. |
| JavaDocChecker.CheckSetsSkipExactly | java/maven/src/org/netbeans/modules/maven/JavaDocChecker.java:40-45 | The whole rule, stated on the goals themselves rather than on their rendering. |
| JavaDocChecker.CheckRunConfig | java/maven/src/org/netbeans/modules/maven/JavaDocChecker.java:39-49 | It always returns true. The goals are untouched, and the properties become CheckedProperties of the old goals and properties. |

## Left out

- The UI is not modelled: icons and badges, the file chooser's dialog, the confirmation dialog, action names and messages, `getActions`, and `OpenProjectAction`. They have no behaviour beyond delegation. The chooser's approval and selected directories are parameters.
- `CreateModuleAction` is not modelled. It only configures and starts a host wizard.
- `findModuleProject` is the given function `Host.find`. Its internals are host services: file normalisation, `ProjectManager.findProject`, the retry after `clearNonProjectCache`, and the check for a Maven project.
- The host's view factories are reduced to the constructor arguments recorded in `NodeKind`: `LogicalViewProvider.createLogicalView`, `FilterNode` and `Children` construction, and `Lookups`. The entry's `provider` field is not modelled.
- `FileUtilities.relativizeFile` is a given partial function. So is the path resolution in "Remove Module" (normalising, then `toFileObject`). Comparing the resolved folder with the module's project directory is equality of directory strings.
- POM editing through `performPOMModelOperations` is an edit of the module list as a sequence.
  - `addModule` is taken to append.
  - `removeModule(path)` is taken to remove the first occurrence of `path`.
  - The POM model classes are not part of this model.
- ModulesNode.ModulesChildFactory.ReloadModules: does not model the `refresh(false)` that follows. That call asks the host framework to run `createKeys` again later, and only the cleared flag is modelled.
- `NbMavenProject.fireMavenProjectReload` after a removal is not modelled. It is event firing.
- Concurrency is not modelled: the `volatile` flag, `synchronized`, `WeakListeners` and listener registration. The reconciliation is sequential.
- The open state is read from one `Host` snapshot for the whole reconciliation. In the source it is re-queried on each call.
- `MavenSettings.getDefault().isSkipJavaDoc()` is a boolean parameter.
- A property map holding a null value for `maven.javadoc.skip` has no counterpart. The map has no null values, so `get(...) == null` is key absence.
- Three constants are defined by host libraries that are not part of this model, so their values are written out: `NbMavenProject.TYPE_POM` ("pom"), `OpenProjects.PROPERTY_OPEN_PROJECTS` ("openProjects") and `NbMavenProject.PROP_PROJECT` ("MavenProject").
