/** The body of `pod_builder build`: validate the arguments, resolve them
    against the catalog, select and partition the pods to build, and work out
    one install step per group. Installing, writing files and reporting are
    not part of the model; the outcome says what the command would build, or
    which error it raises. */
module Build {
  import opened Lists
  import opened Pods
  import opened Checks
  import opened Selection

  /** One pass of the loop over the groups: the group, the build
      configuration its Podfile is generated with (line 84), and the items
      that go into that Podfile (the group's recursive dependencies, each once). */
  datatype BuildStep = BuildStep(
    group: seq<PodfileItem>,
    configuration: string,
    items: seq<PodfileItem>)

  /** How the command ends.
      - NoArguments: nothing was requested; the command returns -1.
      - Aborted: a validation raised `error`.
      - Built: the command goes on to install `steps`, in order, after
        printing `warnings`; `prebuiltToInstall` are the requested prebuilt
        items that are kept in the Podfile afterwards. */
  datatype BuildOutcome =
    | NoArguments
    | Aborted(error: BuildError)
    | Built(warnings: seq<BuildError>, prebuiltToInstall: seq<PodfileItem>, steps: seq<BuildStep>)

  /** `items.map(&:build_configuration)` */
  function Configurations(items: seq<PodfileItem>): (r: seq<string>)
    ensures |r| == |items| && forall k :: 0 <= k < |items| ==> r[k] == items[k].buildConfiguration
  {
    if items == [] then [] else [items[0].buildConfiguration] + Configurations(items[1..])
  }

  /** `items.map { |t| t.recursive_dependencies(all) }.flatten` */
  function RecursiveDependencies(items: seq<PodfileItem>, all: seq<PodfileItem>,
                                 recursiveDependencies: (PodfileItem, seq<PodfileItem>) -> seq<PodfileItem>)
    : (r: seq<PodfileItem>)
  {
    if items == [] then []
    else recursiveDependencies(items[0], all) + RecursiveDependencies(items[1..], all, recursiveDependencies)
  }

  /** The flattened list holds exactly the recursive dependencies of the items. */
  lemma {:induction false} RecursiveDependenciesMembers(items: seq<PodfileItem>, all: seq<PodfileItem>,
                                                        recursiveDependencies: (PodfileItem, seq<PodfileItem>) -> seq<PodfileItem>)
    ensures forall x :: x in RecursiveDependencies(items, all, recursiveDependencies) <==>
      exists t :: t in items && x in recursiveDependencies(t, all)
  {
    if items != [] {
      assert items == [items[0]] + items[1..];
      RecursiveDependenciesMembers(items[1..], all, recursiveDependencies);
    }
  }

  /** The step for one non-empty group: `uniq.first` of its members'
      configurations is the configuration of its first member, and the
      Podfile gets every recursive dependency of a member, once. */
  function StepFor(group: seq<PodfileItem>, all: seq<PodfileItem>,
                   recursiveDependencies: (PodfileItem, seq<PodfileItem>) -> seq<PodfileItem>): (s: BuildStep)
    requires group != []
    ensures s.group == group && s.configuration == group[0].buildConfiguration
  {
    var configurations := Configurations(group);
    UniqHead(configurations);
    BuildStep(group, Uniq(configurations)[0], Uniq(RecursiveDependencies(group, all, recursiveDependencies)))
  }

  /** The Podfile of a step holds every recursive dependency of its
      members, and each of them once. */
  lemma StepItems(group: seq<PodfileItem>, all: seq<PodfileItem>,
                  recursiveDependencies: (PodfileItem, seq<PodfileItem>) -> seq<PodfileItem>)
    requires group != []
    ensures var s := StepFor(group, all, recursiveDependencies);
      && NoDups(s.items)
      && forall x :: x in s.items <==> exists t :: t in group && x in recursiveDependencies(t, all)
  {
    RecursiveDependenciesMembers(group, all, recursiveDependencies);
  }

  /** One step per group, in the order of the groups. */
  function BuildSteps(groups: seq<seq<PodfileItem>>, all: seq<PodfileItem>,
                      recursiveDependencies: (PodfileItem, seq<PodfileItem>) -> seq<PodfileItem>): (r: seq<BuildStep>)
    requires forall k :: 0 <= k < |groups| ==> groups[k] != []
    ensures |r| == |groups|
  {
    seq(|groups|, k requires 0 <= k < |groups| => StepFor(groups[k], all, recursiveDependencies))
  }

  /** The steps for the pods to build: one per non-empty group of their partition. */
  function StepsFor(podsToBuild: seq<PodfileItem>, subspecsToSplit: seq<string>, all: seq<PodfileItem>,
                    recursiveDependencies: (PodfileItem, seq<PodfileItem>) -> seq<PodfileItem>): (steps: seq<BuildStep>)
  {
    BuildSteps(Groups(PartitionPods(podsToBuild, subspecsToSplit)), all, recursiveDependencies)
  }

  /** What the command does with `args`, the catalog `all`, the options and
      the collaborators: nothing without arguments, an error for a subspec
      argument, and otherwise the validations and the build of the resolved
      arguments. */
  function Plan(args: seq<string>, all: seq<PodfileItem>, options: BuildOptions, env: Collaborators)
    : (outcome: BuildOutcome)
  {
    if args == [] then NoArguments
    else
      var subspecCheck := CheckNotBuildingSubspecs(args);
      if subspecCheck.Raise? then Aborted(subspecCheck.error)
      else Validate(ResolveArgumentPods(args, all, env.resolvePodNames), all, options, env)
  }

  /** The command once the arguments are resolved, step by step as it runs.
      The catalog is never nil here, so `check_pods_exists` gets it as present. */
  function Validate(argumentPods: seq<string>, all: seq<PodfileItem>, options: BuildOptions, env: Collaborators)
    : (r: BuildOutcome)
    ensures !r.NoArguments?
    ensures r.Built? ==> |r.warnings| <= 1
    ensures r.Built? ==> (r.warnings != [] <==> SplitsNonStaticSubspec(all, options.subspecsToSplit))
    ensures r.Built? ==> forall w :: w in r.warnings ==> w.NonStaticSplitSubspecs?
  {
    var prebuilt := PrebuiltItems(all);
    var buildable := Difference(all, prebuilt);
    var prebuiltToInstall := ItemsWithRoots(prebuilt, argumentPods);
    var staticCheck := CheckSplittedSubspecsAreStatic(all, options.subspecsToSplit, options.allowWarnings);
    if staticCheck.Raise? then Aborted(staticCheck.error)
    else
      var warnings := if staticCheck.Warn? then [staticCheck.error] else [];
      var existsCheck := CheckPodsExists(argumentPods, Some(all));
      if existsCheck.Raise? then Aborted(existsCheck.error)
      else
        var podsToBuild := ResolvePodsToBuild(argumentPods, buildable);
        var developmentCheck :=
          CheckNotBuildingDevelopmentPods(podsToBuild, options.allowWarnings, options.allowBuildingDevelopmentPods);
        if developmentCheck.Raise? then Aborted(developmentCheck.error)
        else
          var alignment := CheckDependenciesBuildConfigurations(all, env.hasCommonSpec);
          if alignment.Raise? then Aborted(alignment.error)
          else Built(warnings, prebuiltToInstall, StepsFor(podsToBuild, options.subspecsToSplit, all, env.recursiveDependencies))
  }

  /** Lines 30-44: `argument_pods` is rebuilt in place, first from the
      wildcard or the resolved names plus their dependency roots, then cut
      down to catalog roots. */
  method ResolveArguments(args: seq<string>, all: seq<PodfileItem>,
                          resolvePodNames: (seq<string>, seq<PodfileItem>) -> seq<string>)
    returns (argumentPods: seq<string>)
    ensures argumentPods == ResolveArgumentPods(args, all, resolvePodNames)
  {
    argumentPods := args;
    if BuildAll(argumentPods) {
      argumentPods := Uniq(RootNames(all));
    } else {
      argumentPods := resolvePodNames(argumentPods, all);
      var deps := RequestedDependencyRoots(all, argumentPods);
      argumentPods := argumentPods + deps;
      argumentPods := Uniq(argumentPods);
    }
    var availableArgumentPods := KnownRoots(argumentPods, all);
    argumentPods := Uniq(availableArgumentPods);
  }

  /** Lines 65-73: the split subspecs are taken first, then `pods_to_build`
      loses the pods named as dependencies and the split subspecs, and what
      is left is divided by configuration. */
  method SplitPodsToBuild(podsToBuild: seq<PodfileItem>, subspecsToSplit: seq<string>) returns (p: Partition)
    ensures p == PartitionPods(podsToBuild, subspecsToSplit)
  {
    var pods := podsToBuild;
    var podsToBuildSubspecs := SplitSubspecs(pods, subspecsToSplit);
    var allDependenciesName := Uniq(AllDependencyNames(pods));
    pods := WithoutNames(pods, allDependenciesName);
    pods := Difference(pods, podsToBuildSubspecs);
    var podsToBuildDebug := DebugPods(pods);
    var podsToBuildRelease := Difference(pods, podsToBuildDebug);
    p := Partition(podsToBuildSubspecs, podsToBuildDebug, podsToBuildRelease);
  }

  /** Lines 77-83: one singleton per split subspec, then the debug and the
      release group are pushed, and the empty groups are skipped. */
  method CollectGroups(p: Partition) returns (groups: seq<seq<PodfileItem>>)
    ensures groups == Groups(p)
  {
    var podfilesItems := Singletons(p.subspecs);
    podfilesItems := podfilesItems + [p.debug];
    podfilesItems := podfilesItems + [p.release];
    groups := NonEmptyGroups(podfilesItems);
  }

  /** Lines 83-86: the loop over the non-empty groups. */
  method InstallSteps(groups: seq<seq<PodfileItem>>, all: seq<PodfileItem>,
                      recursiveDependencies: (PodfileItem, seq<PodfileItem>) -> seq<PodfileItem>)
    returns (steps: seq<BuildStep>)
    requires forall k :: 0 <= k < |groups| ==> groups[k] != []
    ensures steps == BuildSteps(groups, all, recursiveDependencies)
  {
    steps := [];
    for k := 0 to |groups|
      invariant |steps| == k
      invariant forall j :: 0 <= j < k ==> steps[j] == StepFor(groups[j], all, recursiveDependencies)
    {
      var podfileItems := groups[k];
      var buildConfiguration := Uniq(Configurations(podfileItems))[0];
      podfileItems := Uniq(RecursiveDependencies(podfileItems, all, recursiveDependencies));
      steps := steps + [BuildStep(groups[k], buildConfiguration, podfileItems)];
    }
  }

  /** The command itself: the validations run in the order the command
      runs them, around the steps above. */
  method Call(args: seq<string>, all: seq<PodfileItem>, options: BuildOptions, env: Collaborators)
    returns (outcome: BuildOutcome)
    ensures outcome == Plan(args, all, options, env)
    ensures outcome.NoArguments? <==> args == []
  {
    if !(|args| > 0) {
      return NoArguments;
    }
    var subspecCheck := CheckNotBuildingSubspecs(args);
    if subspecCheck.Raise? {
      return Aborted(subspecCheck.error);
    }

    var prebuiltItems := PrebuiltItems(all);
    var buildableItems := Difference(all, prebuiltItems);
    var argumentPods := ResolveArguments(args, all, env.resolvePodNames);
    var prebuiltPodsToInstall := ItemsWithRoots(prebuiltItems, argumentPods);

    var warnings: seq<BuildError> := [];
    var staticCheck := CheckSplittedSubspecsAreStatic(all, options.subspecsToSplit, options.allowWarnings);
    if staticCheck.Raise? {
      return Aborted(staticCheck.error);
    } else if staticCheck.Warn? {
      warnings := [staticCheck.error];
    }
    var existsCheck := CheckPodsExists(argumentPods, Some(all));
    if existsCheck.Raise? {
      // Unreachable: every resolved argument is already a catalog root.
      assert false;
    }

    var podsToBuild := ResolvePodsToBuild(argumentPods, buildableItems);
    ResolvePodsToBuildSelectsByRoot(argumentPods, buildableItems);
    buildableItems := Difference(buildableItems, podsToBuild);

    var developmentCheck :=
      CheckNotBuildingDevelopmentPods(podsToBuild, options.allowWarnings, options.allowBuildingDevelopmentPods);
    if developmentCheck.Raise? {
      return Aborted(developmentCheck.error);
    }

    var partition := SplitPodsToBuild(podsToBuild, options.subspecsToSplit);

    var alignment := CheckDependenciesBuildConfigurations(all, env.hasCommonSpec);
    AlignmentCheckPassesIffAligned(all, env.hasCommonSpec);
    if alignment.Raise? {
      return Aborted(alignment.error);
    }

    var groups := CollectGroups(partition);
    var steps := InstallSteps(groups, all, env.recursiveDependencies);
    return Built(warnings, prebuiltPodsToInstall, steps);
  }

  // ---------------------------------------------------------------------
  // What a run of the command guarantees

  /** The pods the command selects: the buildable (not prebuilt) catalog
      items whose root is among the resolved arguments. */
  function SelectedPods(argumentPods: seq<string>, all: seq<PodfileItem>): (r: seq<PodfileItem>)
    ensures forall x :: x in r <==> x in all && !x.isPrebuilt && x.rootName in argumentPods
    ensures NoDups(all) ==> NoDups(r) && OrderedIn(r, all)
  {
    var buildable := Difference(all, PrebuiltItems(all));
    var r := ItemsWithRoots(buildable, argumentPods);
    OrderedInTrans(r, buildable, all);
    r
  }

  /** The pods to build are the selected pods. */
  lemma PodsToBuildAreSelected(argumentPods: seq<string>, all: seq<PodfileItem>)
    ensures ResolvePodsToBuild(argumentPods, Difference(all, PrebuiltItems(all))) == SelectedPods(argumentPods, all)
  {
    ResolvePodsToBuildSelectsByRoot(argumentPods, Difference(all, PrebuiltItems(all)));
  }

  /** Without arguments the command does nothing; a subspec argument stops
      it; otherwise it goes on with the resolved arguments, which are
      catalog roots. */
  lemma PlanStages(args: seq<string>, all: seq<PodfileItem>, options: BuildOptions, env: Collaborators)
    ensures args == [] <==> Plan(args, all, options, env).NoArguments?
    ensures args != [] && (exists p :: p in args && '/' in p) ==>
      Plan(args, all, options, env).Aborted? && Plan(args, all, options, env).error.SubspecArgument?
    ensures args != [] && (forall p :: p in args ==> '/' !in p) ==>
      Plan(args, all, options, env) == Validate(ResolveArgumentPods(args, all, env.resolvePodNames), all, options, env)
  {
  }

  /** Resolved arguments that are catalog roots never make the command stop
      because a requested pod is missing. */
  lemma PodsAlwaysExist(argumentPods: seq<string>, all: seq<PodfileItem>, options: BuildOptions, env: Collaborators)
    requires forall n :: n in argumentPods ==> n in RootNames(all)
    ensures var o := Validate(argumentPods, all, options, env);
      o.Aborted? ==> !o.error.PodNotFound? && !o.error.EmptyPodfile?
  {
    var o := Validate(argumentPods, all, options, env);
    var staticCheck := CheckSplittedSubspecsAreStatic(all, options.subspecsToSplit, options.allowWarnings);
    var podsToBuild := ResolvePodsToBuild(argumentPods, Difference(all, PrebuiltItems(all)));
    var developmentCheck :=
      CheckNotBuildingDevelopmentPods(podsToBuild, options.allowWarnings, options.allowBuildingDevelopmentPods);
    var alignment := CheckDependenciesBuildConfigurations(all, env.hasCommonSpec);
    assert CheckPodsExists(argumentPods, Some(all)) == Pass;
    if staticCheck.Raise? {
      assert o == Aborted(staticCheck.error);
    } else if developmentCheck.Raise? {
      assert o == Aborted(developmentCheck.error);
    } else if alignment.Raise? {
      assert o == Aborted(alignment.error);
    } else {
      assert o.Built?;
    }
  }

  /** The command goes on to build exactly when every split subspec is
      static unless warnings are allowed, every argument is a catalog root,
      development pods are excused if any is selected, and the whole catalog
      is aligned. */
  lemma ValidateBuildsIff(argumentPods: seq<string>, all: seq<PodfileItem>, options: BuildOptions, env: Collaborators)
    ensures Validate(argumentPods, all, options, env).Built? <==>
      && (SplitsNonStaticSubspec(all, options.subspecsToSplit) ==> Truthy(options.allowWarnings))
      && (forall n :: n in argumentPods ==> n in RootNames(all))
      && ((exists x :: x in SelectedPods(argumentPods, all) && x.isDevelopmentPod) ==>
            options.allowWarnings.Some? || options.allowBuildingDevelopmentPods)
      && Aligned(all, env.hasCommonSpec)
  {
    var o := Validate(argumentPods, all, options, env);
    var staticCheck := CheckSplittedSubspecsAreStatic(all, options.subspecsToSplit, options.allowWarnings);
    var existsCheck := CheckPodsExists(argumentPods, Some(all));
    var podsToBuild := ResolvePodsToBuild(argumentPods, Difference(all, PrebuiltItems(all)));
    var developmentCheck :=
      CheckNotBuildingDevelopmentPods(podsToBuild, options.allowWarnings, options.allowBuildingDevelopmentPods);
    var alignment := CheckDependenciesBuildConfigurations(all, env.hasCommonSpec);
    PodsToBuildAreSelected(argumentPods, all);
    AlignmentCheckPassesIffAligned(all, env.hasCommonSpec);
    if staticCheck.Raise? {
      assert o == Aborted(staticCheck.error);
    } else if existsCheck.Raise? {
      assert o == Aborted(existsCheck.error);
    } else if developmentCheck.Raise? {
      assert o == Aborted(developmentCheck.error);
    } else if alignment.Raise? {
      assert o == Aborted(alignment.error);
    } else {
      assert o.Built?;
    }
  }

  /** A requested pod is never reported missing: the command resolves the
      arguments to catalog roots before it checks that they exist. */
  lemma PlanNeverMissesPods(args: seq<string>, all: seq<PodfileItem>, options: BuildOptions, env: Collaborators)
    ensures var o := Plan(args, all, options, env);
      o.Aborted? ==> !o.error.PodNotFound? && !o.error.EmptyPodfile?
  {
    if args != [] && !CheckNotBuildingSubspecs(args).Raise? {
      PodsAlwaysExist(ResolveArgumentPods(args, all, env.resolvePodNames), all, options, env);
    }
  }

  /** The command builds exactly when there are arguments, none names a
      subspec, a non-static split subspec is excused by `--allow-warnings`,
      a selected development pod is excused by either option, and the
      catalog is aligned. */
  lemma PlanBuildsIff(args: seq<string>, all: seq<PodfileItem>, options: BuildOptions, env: Collaborators)
    ensures Plan(args, all, options, env).Built? <==>
      && args != []
      && (forall p :: p in args ==> '/' !in p)
      && (SplitsNonStaticSubspec(all, options.subspecsToSplit) ==> Truthy(options.allowWarnings))
      && ((exists x :: x in SelectedPods(ResolveArgumentPods(args, all, env.resolvePodNames), all) && x.isDevelopmentPod) ==>
            options.allowWarnings.Some? || options.allowBuildingDevelopmentPods)
      && Aligned(all, env.hasCommonSpec)
  {
    if args != [] && !CheckNotBuildingSubspecs(args).Raise? {
      ValidateBuildsIff(ResolveArgumentPods(args, all, env.resolvePodNames), all, options, env);
    }
  }

  /** A build installs the prebuilt items whose root was requested, and
      builds one step per group of the selected pods. */
  lemma ValidateBuilt(argumentPods: seq<string>, all: seq<PodfileItem>, options: BuildOptions, env: Collaborators)
    ensures var o := Validate(argumentPods, all, options, env);
      o.Built? ==>
        && (forall x :: x in o.prebuiltToInstall <==> x in all && x.isPrebuilt && x.rootName in argumentPods)
        && o.steps == StepsFor(SelectedPods(argumentPods, all), options.subspecsToSplit, all, env.recursiveDependencies)
  {
    var o := Validate(argumentPods, all, options, env);
    var podsToBuild := ResolvePodsToBuild(argumentPods, Difference(all, PrebuiltItems(all)));
    if CheckSplittedSubspecsAreStatic(all, options.subspecsToSplit, options.allowWarnings).Raise? {
    } else if CheckPodsExists(argumentPods, Some(all)).Raise? {
    } else if CheckNotBuildingDevelopmentPods(podsToBuild, options.allowWarnings, options.allowBuildingDevelopmentPods).Raise? {
    } else if CheckDependenciesBuildConfigurations(all, env.hasCommonSpec).Raise? {
    } else {
      assert o.prebuiltToInstall == ItemsWithRoots(PrebuiltItems(all), argumentPods);
      assert o.steps == StepsFor(podsToBuild, options.subspecsToSplit, all, env.recursiveDependencies);
      PodsToBuildAreSelected(argumentPods, all);
    }
  }

  /** When the command builds, it warns only about non-static split
      subspecs, installs the requested prebuilt items again, and builds one
      step per group of the selected pods. */
  lemma PlanBuilt(args: seq<string>, all: seq<PodfileItem>, options: BuildOptions, env: Collaborators)
    ensures var o := Plan(args, all, options, env);
      var argumentPods := ResolveArgumentPods(args, all, env.resolvePodNames);
      o.Built? ==>
        && |o.warnings| <= 1
        && (o.warnings != [] <==> SplitsNonStaticSubspec(all, options.subspecsToSplit))
        && (forall w :: w in o.warnings ==> w.NonStaticSplitSubspecs?)
        && (forall x :: x in o.prebuiltToInstall <==> x in all && x.isPrebuilt && x.rootName in argumentPods)
        && o.steps == StepsFor(SelectedPods(argumentPods, all), options.subspecsToSplit, all, env.recursiveDependencies)
  {
    if args != [] && !CheckNotBuildingSubspecs(args).Raise? {
      ValidateBuilt(ResolveArgumentPods(args, all, env.resolvePodNames), all, options, env);
    }
  }

  /** Every pod a step is built for is one of the pods to build, and it is a
      split subspec or none of the pods to build names it as a dependency. */
  lemma StepMembers(pods: seq<PodfileItem>, subspecsToSplit: seq<string>, all: seq<PodfileItem>,
                    recursiveDependencies: (PodfileItem, seq<PodfileItem>) -> seq<PodfileItem>, k: nat, x: PodfileItem)
    requires k < |StepsFor(pods, subspecsToSplit, all, recursiveDependencies)|
    requires x in StepsFor(pods, subspecsToSplit, all, recursiveDependencies)[k].group
    ensures x in pods
    ensures IsSplitSubspec(x, subspecsToSplit) || !NamedAsDependency(x, pods)
  {
    var p := PartitionPods(pods, subspecsToSplit);
    GroupsInOrder(p);
    GroupMembers(p, k, x);
  }

  /** A step's Podfile is generated in debug exactly when all of its pods
      are debug pods: the release group may mix configurations, but never with debug. */
  lemma StepConfiguration(pods: seq<PodfileItem>, subspecsToSplit: seq<string>, all: seq<PodfileItem>,
                          recursiveDependencies: (PodfileItem, seq<PodfileItem>) -> seq<PodfileItem>, k: nat)
    requires k < |StepsFor(pods, subspecsToSplit, all, recursiveDependencies)|
    ensures var step := StepsFor(pods, subspecsToSplit, all, recursiveDependencies)[k];
      step.configuration == DebugConfiguration <==>
        forall x :: x in step.group ==> x.buildConfiguration == DebugConfiguration
  {
    var p := PartitionPods(pods, subspecsToSplit);
    GroupConfiguration(p, k);
  }

  /** The first pod of a group is a debug pod exactly when all of them are,
      for a partition whose debug and release parts are what they say. */
  lemma GroupConfiguration(p: Partition, k: nat)
    requires forall x :: x in p.debug ==> x.buildConfiguration == DebugConfiguration
    requires forall x :: x in p.release ==> x.buildConfiguration != DebugConfiguration
    requires k < |Groups(p)|
    ensures Groups(p)[k] != []
    ensures Groups(p)[k][0].buildConfiguration == DebugConfiguration <==>
      forall x :: x in Groups(p)[k] ==> x.buildConfiguration == DebugConfiguration
  {
    GroupsInOrder(p);
    var g := Groups(p);
    var n := |p.subspecs|;
    if k < n {
      assert g[k] == [p.subspecs[k]];
    } else if p.debug != [] && k == n {
      assert g[k] == p.debug;
    } else {
      assert p.release != [] && k == |g| - 1;
      assert g[k] == p.release && g[k][0] in p.release;
    }
  }

  /** Given pods to build without repetitions, no pod is built in two steps. */
  lemma StepsAreDisjoint(pods: seq<PodfileItem>, subspecsToSplit: seq<string>, all: seq<PodfileItem>,
                         recursiveDependencies: (PodfileItem, seq<PodfileItem>) -> seq<PodfileItem>,
                         k1: nat, k2: nat, x: PodfileItem)
    requires NoDups(pods)
    requires k1 < k2 < |StepsFor(pods, subspecsToSplit, all, recursiveDependencies)|
    requires x in StepsFor(pods, subspecsToSplit, all, recursiveDependencies)[k1].group
    ensures x !in StepsFor(pods, subspecsToSplit, all, recursiveDependencies)[k2].group
  {
    GroupsAreDisjoint(pods, subspecsToSplit, k1, k2, x);
  }

  /** Every pod to build is built in some step, unless one of the pods to
      build names it as a dependency. */
  lemma StepsCoverPods(pods: seq<PodfileItem>, subspecsToSplit: seq<string>, all: seq<PodfileItem>,
                       recursiveDependencies: (PodfileItem, seq<PodfileItem>) -> seq<PodfileItem>, x: PodfileItem)
    requires x in pods
    ensures var steps := StepsFor(pods, subspecsToSplit, all, recursiveDependencies);
      NamedAsDependency(x, pods) || exists k :: 0 <= k < |steps| && x in steps[k].group
  {
    GroupsCoverPods(pods, subspecsToSplit, x);
    var g := Groups(PartitionPods(pods, subspecsToSplit));
    var steps := StepsFor(pods, subspecsToSplit, all, recursiveDependencies);
    if !NamedAsDependency(x, pods) {
      var k :| 0 <= k < |g| && x in g[k];
      assert x in steps[k].group;
    }
  }

  /** The steps of a partition: one per split subspec, in order, and the
      release step, last, generated with its first pod's configuration. */
  lemma PartitionSteps(p: Partition, all: seq<PodfileItem>,
                       recursiveDependencies: (PodfileItem, seq<PodfileItem>) -> seq<PodfileItem>)
    ensures var steps := BuildSteps(Groups(p), all, recursiveDependencies);
      && (forall k :: 0 <= k < |p.subspecs| ==> k < |steps| && steps[k].group == [p.subspecs[k]])
      && (p.release != [] ==> steps != [] && steps[|steps| - 1].configuration == p.release[0].buildConfiguration)
  {
    GroupsInOrder(p);
  }

  /** The first element of a list ordered within `s` comes first in `s`. */
  lemma FirstKeepsOrder(r: seq<PodfileItem>, s: seq<PodfileItem>)
    requires OrderedIn(r, s)
    ensures r != [] ==> forall y :: y in r ==> y in s && FirstIndex(s, r[0]) <= FirstIndex(s, y)
  {
    forall y | y in r ensures y in s && FirstIndex(s, r[0]) <= FirstIndex(s, y) {
      var j :| 0 <= j < |r| && r[j] == y;
      if j > 0 {
        assert FirstIndex(s, r[0]) < FirstIndex(s, r[j]);
      }
    }
  }

  /** A part ordered within pods to build that keep the order of the
      catalog is ordered within the catalog, and its first pod comes first
      there. */
  lemma PartFirstInCatalog(part: seq<PodfileItem>, pods: seq<PodfileItem>, all: seq<PodfileItem>)
    requires OrderedIn(part, pods) && OrderedIn(pods, all)
    ensures OrderedIn(part, all)
    ensures part != [] ==> forall y :: y in part ==> y in all && FirstIndex(all, part[0]) <= FirstIndex(all, y)
  {
    OrderedInTrans(part, pods, all);
    FirstKeepsOrder(part, all);
  }

  /** For pods to build that keep the order of a catalog, the steps follow
      catalog order: the split subspecs are built one per step in catalog
      order, and the release step is generated with the configuration of the
      release pod that comes first in the catalog. The selected pods of a
      catalog that lists every item once are such pods (`SelectedPods`). */
  lemma StepsFollowCatalog(pods: seq<PodfileItem>, subspecsToSplit: seq<string>, all: seq<PodfileItem>,
                           recursiveDependencies: (PodfileItem, seq<PodfileItem>) -> seq<PodfileItem>)
    requires NoDups(pods) && OrderedIn(pods, all)
    ensures var p := PartitionPods(pods, subspecsToSplit);
      var steps := StepsFor(pods, subspecsToSplit, all, recursiveDependencies);
      && OrderedIn(p.subspecs, all)
      && (forall k :: 0 <= k < |p.subspecs| ==> k < |steps| && steps[k].group == [p.subspecs[k]])
      && (p.release != [] ==>
            && steps != []
            && steps[|steps| - 1].configuration == p.release[0].buildConfiguration
            && forall y :: y in p.release ==> y in all && FirstIndex(all, p.release[0]) <= FirstIndex(all, y))
  {
    var p := PartitionPods(pods, subspecsToSplit);
    PartitionStepsInCatalog(p, pods, all, recursiveDependencies,
                            StepsFor(pods, subspecsToSplit, all, recursiveDependencies));
  }

  /** `StepsFollowCatalog` for any partition whose split subspecs and
      release pods keep the order of the pods to build. */
  lemma PartitionStepsInCatalog(p: Partition, pods: seq<PodfileItem>, all: seq<PodfileItem>,
                                recursiveDependencies: (PodfileItem, seq<PodfileItem>) -> seq<PodfileItem>,
                                steps: seq<BuildStep>)
    requires OrderedIn(p.subspecs, pods) && OrderedIn(p.release, pods) && OrderedIn(pods, all)
    requires steps == BuildSteps(Groups(p), all, recursiveDependencies)
    ensures && OrderedIn(p.subspecs, all)
      && (forall k :: 0 <= k < |p.subspecs| ==> k < |steps| && steps[k].group == [p.subspecs[k]])
      && (p.release != [] ==>
            && steps != []
            && steps[|steps| - 1].configuration == p.release[0].buildConfiguration
            && forall y :: y in p.release ==> y in all && FirstIndex(all, p.release[0]) <= FirstIndex(all, y))
  {
    PartitionSteps(p, all, recursiveDependencies);
    PartFirstInCatalog(p.subspecs, pods, all);
    PartFirstInCatalog(p.release, pods, all);
  }
}
