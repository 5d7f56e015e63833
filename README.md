# PodBuilder `build` command, modelled in Dafny

PodBuilder prebuilds CocoaPods dependencies into frameworks. Its `build`
command takes a list of pod names (or `*`) and goes through these steps:

- It checks that no argument names a subspec.
- It resolves the arguments against the Podfile's catalog of items.
- It runs validations on the catalog and on the selection:
  - split subspecs must be static;
  - the requested pods must exist;
  - development pods are refused;
  - pods sharing a dependency must have aligned build configurations.
- It partitions the selected pods into install groups:
  - one group per split subspec;
  - one debug group;
  - one release group.
- For each non-empty group it generates a Podfile holding the group's
  recursive dependencies, with the build configuration of the group's first
  member, and hands it to the installer.

This project models that command, `PodBuilder::Command::Build`, down to the
point where each group is handed to the installer.

- `lists.dfy` (module `Lists`): the Ruby `Array` operations the command
  relies on. These are `select`, `-`, `&`, `uniq` (first-seen order) and
  `uniq.first`.
- `pods.dfy` (module `Pods`): the data the command works on.
  - A catalog item is a `PodfileItem` value.
  - The options are `BuildOptions`:
    - `allow_warnings` is absent or a boolean, because the two checks read it
      differently;
    - `subspecs_to_split`;
    - `allow_building_development_pods`.
  - The services the command calls but that are defined elsewhere are
    `Collaborators`: `resolve_pod_names`, `has_common_spec` and
    `recursive_dependencies`.
  - Errors are `BuildError`, carrying the names each message reports.
  - `s.split("/").first` is `FirstSegment`.
- `checks.dfy` (module `Checks`): the private validation helpers. Each is a
  function returning `Pass`, `Warn` or `Raise`.
- `selection.dfy` (module `Selection`): argument resolution,
  `resolve_pods_to_build` with `other_subspecs`, and the partition of the
  pods to build into groups.
- `build.dfy` (module `Build`): the command.
  - `Plan` and `Validate` say what a run produces: nothing when there are no
    arguments, the error a validation raises, or the install steps.
  - `Call` is the imperative body that reassigns its variables in the
    source's order:
    - it calls `ResolveArguments` (lines 30-44), `SplitPodsToBuild`
      (lines 65-73) and `CollectGroups` (lines 77-79);
    - its loop over the groups is `InstallSteps` (lines 83-86);
    - it is proved to produce `Plan`.
  - Lemmas about `Validate` and `Plan` state what a run guarantees.

What the code does, as the model shows:

- The arguments are cut down to catalog root names before `check_pods_exists`
  runs, so that check can never raise inside the command
  (`PlanNeverMissesPods`).
- `other_subspecs` never adds a pod when called from `resolve_pods_to_build`:
  a sibling subspec has the same root, which was already requested
  (`ResolvePodsToBuildSelectsByRoot`).
- The build-configuration check compares only pods that share a dependency
  name outside their common spec. A debug pod on which a release pod depends
  directly is not rejected (`DirectDependencyIsNotCompared`).
- `allow_warnings` given as `false` does not excuse a non-static split
  subspec, because that check needs a truthy value. It does excuse
  development pods, because that check only asks whether the option is
  present (`ExplicitFalseAllowWarnings`).

## Model

`Selection.ResolvePodsToBuild`, `Selection.Groups` and `Build.Plan` compute
without contracts of their own; what they guarantee is stated by the lemma rows
that name them (`ResolvePodsToBuildBounds`, `GroupsShape`, `PlanBuildsIff` and
the others below).

| member | source | states |
|---|---|---|
| Lists.Difference | lib/pod_builder/command/build.rb:28 | `a - b` keeps exactly the elements of `a` that are not in `b`, adds no duplicates, and keeps `a`'s order |
| Lists.SelectOrdered | lib/pod_builder/command/build.rb:65-73 | `select` keeps the order of a list without duplicates: the kept elements come in the order of their positions in the input |
| Lists.OrderedInTrans | lib/pod_builder/command/build.rb:65-73 | keeping order composes, so a chain of `select`s and `-`s keeps the order of its first input |
| Lists.Uniq | lib/pod_builder/command/build.rb:37 | `uniq` has no duplicates, keeps exactly the elements of its input, and is never longer |
| Lists.UniqFirstSeen | lib/pod_builder/command/build.rb:37 | `uniq` orders elements by their first occurrence in the input |
| Lists.UniqOfNoDups | lib/pod_builder/command/build.rb:44 | `uniq` leaves a list without duplicates unchanged |
| Lists.UniqHead | lib/pod_builder/command/build.rb:84 | `uniq.first` of a non-empty list is its first element |
| Lists.Intersect | lib/pod_builder/command/build.rb:147 | `a & b` holds exactly the elements in both lists, each once |
| Pods.FirstSegment | lib/pod_builder/command/build.rb:35 | `split("/").first` is nil exactly for a name made only of slashes; otherwise it is the slash-free prefix ending at the first '/' |
| Pods.FirstSegmentOfSubspecName | lib/pod_builder/command/build.rb:35 | a dependency `Root/Sub` splits back to `Root` |
| Pods.FirstSegmentOfRootName | lib/pod_builder/command/build.rb:35 | a non-empty name without '/' is its own first segment |
| Checks.CheckNotBuildingSubspecs | lib/pod_builder/command/build.rb:126-131 | raises exactly when some argument contains '/'; the error names the first such argument; it never only warns |
| Checks.CheckPodsExists | lib/pod_builder/command/build.rb:134-141 | a nil catalog raises the empty-Podfile error; otherwise it raises exactly when some pod is not a catalog root, naming the first such pod |
| Checks.NonStaticSubspecNames | lib/pod_builder/command/build.rb:144-145 | the names are exactly those of the catalog's non-static subspecs |
| Checks.CheckSplittedSubspecsAreStatic | lib/pod_builder/command/build.rb:143-158 | passes exactly when no split subspec is non-static; otherwise warns when `allow_warnings` is truthy and raises when not; the error lists each configured non-static subspec once |
| Checks.UnalignedWithMembers | lib/pod_builder/command/build.rb:163-169 | the pods reported for `pod` are exactly the other pods sharing a non-common-spec dependency with it under a different configuration |
| Checks.CheckDependenciesBuildConfigurations | lib/pod_builder/command/build.rb:161-172 | the check never only warns, and a raise reports an unaligned build configuration |
| Checks.AlignmentCheckPassesIffAligned | lib/pod_builder/command/build.rb:161-172 | the check passes exactly when every two distinct pods sharing a dependency have the same configuration |
| Checks.FirstUnaligned | lib/pod_builder/command/build.rb:162-171 | when the check fails, it raises for the first pod with unaligned partners and names those partners |
| Checks.UnalignedIsMutual | lib/pod_builder/command/build.rb:163-168 | if `p` reports `q`, then `q` reports `p` |
| Checks.DirectDependencyIsNotCompared | lib/pod_builder/command/build.rb:161-172 | a release pod depending directly on a debug pod passes, whatever the common specs |
| Checks.CheckNotBuildingDevelopmentPods | lib/pod_builder/command/build.rb:175-180 | raises exactly when a development pod is selected, `allow_warnings` is absent and the configuration does not allow it; the error names every development pod; it never only warns |
| Checks.ExplicitFalseAllowWarnings | lib/pod_builder/command/build.rb:176 | an explicit false `allow_warnings` still raises for non-static split subspecs (line 154) but lets development pods through |
| Selection.PrebuiltItems | lib/pod_builder/command/build.rb:27 | exactly the prebuilt catalog items |
| Selection.ItemsWithRoots | lib/pod_builder/command/build.rb:46 | exactly the items whose root was requested, without duplicates and in input order when the input has no duplicates |
| Selection.RequestedDependencyRoots | lib/pod_builder/command/build.rb:35 | exactly the first segments of the dependency names of the catalog items whose root was requested |
| Selection.KnownRoots | lib/pod_builder/command/build.rb:40 | keeps exactly the names that are catalog roots, and all of them when every name is one |
| Selection.ResolveArgumentPods | lib/pod_builder/command/build.rb:30-44 | the resolved arguments are catalog roots, each once |
| Selection.ResolveAllIsCatalogRoots | lib/pod_builder/command/build.rb:30-32 | with `*`, the arguments are the catalog's distinct root names in catalog order |
| Selection.ResolveNamedArguments | lib/pod_builder/command/build.rb:34-44 | without `*`, a name is kept exactly when it is a catalog root that was resolved, or is the root of a dependency of a resolved item |
| Selection.OtherSubspecs | lib/pod_builder/command/build.rb:182-189 | exactly the unselected buildable subspecs sharing their root with a selected subspec |
| Selection.ResolvePodsToBuildBounds | lib/pod_builder/command/build.rb:207-214 | the pods to build are buildable items and include every buildable item with a requested root; any other one is a subspec sharing its root with a selected subspec |
| Selection.ResolvePodsToBuildSelectsByRoot | lib/pod_builder/command/build.rb:207-214 | `other_subspecs` adds nothing, so the pods to build are exactly the buildable items with a requested root |
| Selection.SplitSubspecs | lib/pod_builder/command/build.rb:65 | exactly the pods to build that are subspecs named in `subspecs_to_split`, in the order of the pods to build |
| Selection.WithoutNames | lib/pod_builder/command/build.rb:69 | drops exactly the pods whose name is listed and keeps the order of the rest |
| Selection.DebugPods | lib/pod_builder/command/build.rb:72 | exactly the pods whose configuration is "debug", in input order |
| Selection.PartitionPods | lib/pod_builder/command/build.rb:65-73 | the split subspecs are picked before dependencies are dropped; debug and release hold the other pods that no pod to build names as a dependency, divided by configuration; no part gains a duplicate, and each part keeps the order of the pods to build |
| Selection.PartitionIsDisjoint | lib/pod_builder/command/build.rb:65-73 | for pods to build without duplicates, the three parts share no pod |
| Selection.Singletons | lib/pod_builder/command/build.rb:77 | one single-pod group per split subspec, in order |
| Selection.NonEmptyGroups | lib/pod_builder/command/build.rb:83 | exactly the non-empty groups are kept |
| Selection.GroupsShape | lib/pod_builder/command/build.rb:77-83 | the groups are the singletons, then the debug group and then the release group, each only if non-empty |
| Selection.GroupsInOrder | lib/pod_builder/command/build.rb:77-83 | no group is empty; the count and the position of every group are fixed |
| Selection.GroupsAreDisjoint | lib/pod_builder/command/build.rb:65-83 | no pod is in two groups |
| Selection.GroupMembers | lib/pod_builder/command/build.rb:77-83 | every group member comes from one of the three parts |
| Selection.GroupsCoverPods | lib/pod_builder/command/build.rb:65-83 | every pod to build is in a group unless a pod to build names it as a dependency |
| Build.Configurations | lib/pod_builder/command/build.rb:84 | position by position, the members' build configurations |
| Build.RecursiveDependenciesMembers | lib/pod_builder/command/build.rb:86 | the flattened list holds exactly the recursive dependencies of the group's members |
| Build.StepFor | lib/pod_builder/command/build.rb:84-86 | a step's Podfile is generated with the configuration of the group's first member (line 84's `uniq.first`) |
| Build.StepItems | lib/pod_builder/command/build.rb:86 | a step's Podfile items are exactly the recursive dependencies of its members, each once |
| Build.BuildSteps | lib/pod_builder/command/build.rb:83-86 | one step per group |
| Build.Validate | lib/pod_builder/command/build.rb:46-86 | after resolution the run raises or builds; a build carries at most one warning, present exactly when a split subspec is non-static, and every warning is about non-static split subspecs |
| Build.ResolveArguments | lib/pod_builder/command/build.rb:30-44 | the imperative reassignments of `argument_pods` produce the resolved arguments |
| Build.SplitPodsToBuild | lib/pod_builder/command/build.rb:65-73 | the in-order updates of `pods_to_build` produce the partition |
| Build.CollectGroups | lib/pod_builder/command/build.rb:77-83 | building `podfiles_items` by pushes and then selecting the non-empty groups gives the groups |
| Build.InstallSteps | lib/pod_builder/command/build.rb:83-86 | the loop over the groups produces one step per group, in order |
| Build.Call | lib/pod_builder/command/build.rb:12-86 | the command body produces `Plan`'s outcome; it returns without effect exactly when there are no arguments |
| Build.SelectedPods | lib/pod_builder/command/build.rb:55 | the selected pods are exactly the non-prebuilt catalog items with a requested root; for a catalog without duplicates they have none and keep catalog order |
| Build.PodsToBuildAreSelected | lib/pod_builder/command/build.rb:55 | `resolve_pods_to_build` on the buildable items gives the selected pods |
| Build.PlanStages | lib/pod_builder/command/build.rb:12-19 | no arguments returns early; a subspec argument raises `SubspecArgument`; otherwise the run continues with the resolved arguments |
| Build.PodsAlwaysExist | lib/pod_builder/command/build.rb:53 | when all resolved arguments are catalog roots, the run never raises a missing-pod or empty-Podfile error |
| Build.PlanNeverMissesPods | lib/pod_builder/command/build.rb:40-53 | no run of the command raises a missing-pod or empty-Podfile error |
| Build.ValidateBuildsIff | lib/pod_builder/command/build.rb:52-75 | after resolution the run builds exactly when (1) a non-static split subspec is excused by a truthy `allow_warnings`, (2) every argument is a catalog root, (3) any selected development pod is excused and (4) the catalog is aligned |
| Build.PlanBuildsIff | lib/pod_builder/command/build.rb:12-75 | the command builds exactly when there are arguments, none contains '/', and the validation conditions hold |
| Build.ValidateBuilt | lib/pod_builder/command/build.rb:46-86 | a build reinstalls exactly the requested prebuilt items and has the steps of the selected pods |
| Build.PlanBuilt | lib/pod_builder/command/build.rb:46-86 | a build of the command carries at most one warning, only about non-static split subspecs; it reinstalls the requested prebuilt items and has the steps of the selected pods |
| Build.StepMembers | lib/pod_builder/command/build.rb:65-83 | each pod in a step is a pod to build, and is a split subspec or a pod no other pod to build depends on by name |
| Build.StepConfiguration | lib/pod_builder/command/build.rb:72-84 | a step's Podfile is generated in debug exactly when all of the group's pods are debug pods |
| Build.GroupConfiguration | lib/pod_builder/command/build.rb:72-84 | a group's first member is debug exactly when all its members are |
| Build.StepsAreDisjoint | lib/pod_builder/command/build.rb:77-86 | for pods to build without duplicates (the selected pods of a catalog without duplicates, by `SelectedPods`), no pod is built in two steps |
| Build.StepsCoverPods | lib/pod_builder/command/build.rb:65-86 | every pod to build is built in some step unless a pod to build names it as a dependency |
| Build.PartitionSteps | lib/pod_builder/command/build.rb:77-86 | the first steps are the split subspecs, one each and in order; the release step comes last and is generated with the configuration of the release group's first pod |
| Build.PartitionStepsInCatalog | lib/pod_builder/command/build.rb:65-86 | for a partition whose split subspecs and release pods keep the order of pods that keep catalog order, the split subspecs are built in catalog order and the release step is generated with the configuration of the release pod that comes first in the catalog |
| Build.StepsFollowCatalog | lib/pod_builder/command/build.rb:55-86 | for pods to build without duplicates that keep catalog order, the split-subspec steps come in catalog order and the release step is generated with the configuration of the release pod that comes first in the catalog, so a mixed release group takes its earliest pod's configuration |

## Left out

- Lines 7-8, 16 and 18: configuration setup, the `xcode-select` path check and `Podfile.sanity_check`. They read the environment and the file system.
- Lines 21-26: loading and analysing the Podfile. The resulting catalog is the parameter `all`.
- Lines 41-43 and the text of every raised or printed message. The model keeps only the names each error reports.
- Lines 48-50 and 116-118: restoring the Podfile and reporting a restore error. Both are file I/O.
- Lines 87-92: writing each Podfile, `Install.podfile`, collecting licenses and removing the lock file. A step records what line 87 generates the Podfile from: the group, line 84's configuration and line 86's Podfile items.
- Line 89 raises NoMethodError when a group's recursive dependencies are empty, because `podfile_items.first` is then nil. The configuration line 89 passes to the installer, taken from the first recursive dependency, is not modelled.
- Lines 95-121: cleaning, licenses, LFS, podspec generation, `write_restorable`, `write_prebuilt`, `Podfile::install`, `sanity_checks` (lines 191-205) and the return value 0. All of these are file or process I/O after the steps.
- `Podfile::resolve_pod_names`, `has_common_spec` and `recursive_dependencies` are defined elsewhere. They are `Collaborators` parameters, with no assumption about them.
- Ruby compares catalog items by object identity in `-`, `include?` and `uniq`. The model compares them as values, which agrees as long as the catalog holds each item once.
- `allow_warnings` is absent, `true` or `false` in the model. Any other value Ruby would treat as truthy is not represented.
- Pods.FirstSegments drops nil first segments instead of keeping nil in the list. A nil can never equal a catalog root, so every result of the command is unchanged.
- The order of the pods inside a step's Podfile is stated only as a set without duplicates (Build.StepItems). It follows `recursive_dependencies`, which is not part of this model.
- Build.Validate: when `check_splitted_subspecs_are_static` warns (line 155) and a later check raises (lines 53, 63 or 75), the warning has already been printed; `Aborted` carries only the error, not that warning.
