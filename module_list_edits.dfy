/**
 * The two actions of the Modules node that edit the parent POM's module list:
 * "Add Existing Module..." appends the chosen directories, relativised to the
 * project directory; "Remove Module" on a closed module's node removes the
 * first listed path that leads to that module's directory.
 *
 * The file chooser, the confirmation dialog and the POM model are replaced by
 * their results: the chooser's approval and chosen directories, path
 * relativisation and resolution as given functions, and the module list as a
 * sequence.
 */
module ModuleListEdits {
  import opened Wrappers
  import opened ModulesNode

  /**
   * The module paths AddModuleAction takes from the chosen directories:
   * each one relativised against the project directory, in order, dropping
   * those that cannot be relativised and the project directory itself (".").
   */
  function SelectedModules(chosen: seq<string>, relativize: string -> Option<string>): seq<string>
  {
    if |chosen| == 0 then []
    else
      SelectedModules(chosen[..|chosen| - 1], relativize) +
      (match relativize(chosen[|chosen| - 1])
       case Some(mod) => if mod != "." then [mod] else []
       case None => [])
  }

  /** The relativised form of each chosen directory. */
  function Relativized(chosen: seq<string>, relativize: string -> Option<string>): (r: seq<Option<string>>)
    ensures |r| == |chosen| && forall i :: 0 <= i < |chosen| ==> r[i] == relativize(chosen[i])
  {
    if |chosen| == 0 then []
    else Relativized(chosen[..|chosen| - 1], relativize) + [relativize(chosen[|chosen| - 1])]
  }

  /** Every relativised path other than "." is taken as often as it arises; nothing else is taken. */
  lemma {:induction false} SelectedModulesCounts(chosen: seq<string>, relativize: string -> Option<string>, x: string)
    ensures multiset(SelectedModules(chosen, relativize))[x] ==
            if x == "." then 0 else multiset(Relativized(chosen, relativize))[Some(x)]
  {
    if |chosen| > 0 {
      SelectedModulesCounts(chosen[..|chosen| - 1], relativize, x);
    }
  }

  /** No edit is made exactly when no chosen directory relativises to a path other than ".". */
  lemma {:induction false} NothingSelected(chosen: seq<string>, relativize: string -> Option<string>)
    ensures SelectedModules(chosen, relativize) == [] <==>
            forall i :: 0 <= i < |chosen| ==> relativize(chosen[i]) in {None, Some(".")}
  {
    if |chosen| > 0 {
      var init, last := chosen[..|chosen| - 1], relativize(chosen[|chosen| - 1]);
      NothingSelected(init, relativize);
      assert SelectedModules(chosen, relativize) ==
             SelectedModules(init, relativize) + (if last.Some? && last.value != "." then [last.value] else []);
      assert forall i :: 0 <= i < |chosen| - 1 ==> init[i] == chosen[i];
    }
  }

  /** The first loop of AddModuleAction: collect the module paths to add. */
  method CollectModules(chosen: seq<string>, relativize: string -> Option<string>) returns (mods: seq<string>)
    ensures mods == SelectedModules(chosen, relativize)
  {
    mods := [];
    for j := 0 to |chosen|
      invariant mods == SelectedModules(chosen[..j], relativize)
    {
      assert chosen[..j + 1][..j] == chosen[..j];
      var mod := relativize(chosen[j]);
      if mod.Some? && mod.value != "." {
        mods := mods + [mod.value];
      }
    }
    assert chosen[..|chosen|] == chosen;
  }

  /**
   * AddModuleAction: unless the chooser was cancelled or nothing usable was
   * chosen, append the collected paths to the POM's module list.
   */
  method AddModules(pomModules: seq<string>, approved: bool, chosen: seq<string>, relativize: string -> Option<string>)
    returns (edited: bool, newModules: seq<string>)
    ensures edited <==> approved && SelectedModules(chosen, relativize) != []
    ensures newModules == if edited then pomModules + SelectedModules(chosen, relativize) else pomModules
  {
    if !approved {
      return false, pomModules;
    }
    var mods := CollectModules(chosen, relativize);
    if |mods| == 0 {
      return false, pomModules;
    }
    newModules := pomModules;
    for j := 0 to |mods|
      invariant newModules == pomModules + mods[..j]
    {
      assert mods[..j + 1] == mods[..j] + [mods[j]];
      newModules := newModules + [mods[j]];
    }
    assert mods[..|mods|] == mods;
    return true, newModules;
  }

  /** The index of the first listed path whose directory is dir. */
  function FirstResolvingTo(paths: seq<string>, resolve: string -> Option<string>, dir: string): (r: Option<nat>)
    ensures r.Some? ==> r.value < |paths| && resolve(paths[r.value]) == Some(dir)
    ensures r.Some? ==> forall j :: 0 <= j < r.value ==> resolve(paths[j]) != Some(dir)
    ensures r.None? ==> forall j :: 0 <= j < |paths| ==> resolve(paths[j]) != Some(dir)
  {
    if |paths| == 0 then None
    else if resolve(paths[0]) == Some(dir) then Some(0)
    else match FirstResolvingTo(paths[1..], resolve, dir)
         case None => None
         case Some(i) => Some(i + 1)
  }

  /** POMModel's removeModule: drop the first occurrence of path. */
  function RemoveFirst(paths: seq<string>, path: string): seq<string>
  {
    if |paths| == 0 then []
    else if paths[0] == path then paths[1..]
    else [paths[0]] + RemoveFirst(paths[1..], path)
  }

  /** Removing the first occurrence of the path at index i removes exactly index i. */
  lemma {:induction false} RemoveFirstAt(paths: seq<string>, i: nat)
    requires i < |paths|
    requires forall j :: 0 <= j < i ==> paths[j] != paths[i]
    ensures RemoveFirst(paths, paths[i]) == paths[..i] + paths[i + 1..]
  {
    if i > 0 {
      RemoveFirstAt(paths[1..], i - 1);
      assert paths[1..][i - 1] == paths[i];
      assert paths[..i] == [paths[0]] + paths[1..][..i - 1];
      assert paths[i + 1..] == paths[1..][i..];
    }
  }

  /**
   * RemoveModuleAction's POM edit: remove the first listed path that resolves
   * to the module's directory; a POM without a module list is left alone.
   */
  method RemoveModule(pomModules: Option<seq<string>>, resolve: string -> Option<string>, subProject: ProjectId)
    returns (result: Option<seq<string>>)
    ensures pomModules.None? ==> result == None
    ensures pomModules.Some? ==>
              && result.Some?
              && match FirstResolvingTo(pomModules.value, resolve, subProject.dir)
                 case None => result.value == pomModules.value
                 case Some(i) => result.value == pomModules.value[..i] + pomModules.value[i + 1..]
  {
    if pomModules.None? {
      return None;
    }
    var paths := pomModules.value;
    var j := 0;
    while j < |paths|
      invariant 0 <= j <= |paths|
      invariant forall k :: 0 <= k < j ==> resolve(paths[k]) != Some(subProject.dir)
    {
      var folder := resolve(paths[j]);
      if folder.Some? && folder.value == subProject.dir {
        RemoveFirstAt(paths, j);
        return Some(RemoveFirst(paths, paths[j]));
      }
      j := j + 1;
    }
    return Some(paths);
  }
}
