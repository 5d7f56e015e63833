/** Which pods `pod_builder build` builds: the requested root names are
    resolved against the catalog, the matching buildable items are selected,
    and the selection is split into the groups handed to the installer. */
module Selection {
  import opened Lists
  import opened Pods

  // ---------------------------------------------------------------------
  // Prebuilt split and argument resolution

  /** `all_buildable_items.select { |x| x.is_prebuilt }` */
  function PrebuiltItems(items: seq<PodfileItem>): (r: seq<PodfileItem>)
    ensures forall x :: x in r <==> x in items && x.isPrebuilt
  {
    Select(items, (x: PodfileItem) => x.isPrebuilt)
  }

  /** `items.select { |t| roots.include?(t.root_name) }` */
  function ItemsWithRoots(items: seq<PodfileItem>, roots: seq<string>): (r: seq<PodfileItem>)
    ensures forall x :: x in r <==> x in items && x.rootName in roots
    ensures NoDups(items) ==> NoDups(r) && OrderedIn(r, items)
  {
    var test := (x: PodfileItem) => x.rootName in roots;
    SelectNoDups(items, test);
    SelectOrdered(items, test);
    Select(items, test)
  }

  /** The first argument is the wildcard `*`. */
  predicate BuildAll(args: seq<string>) {
    |args| > 0 && args[0] == "*"
  }

  /** The roots of the dependency names of the requested catalog items, one
      level deep (line 35). */
  function RequestedDependencyRoots(items: seq<PodfileItem>, requested: seq<string>): (r: seq<string>)
    ensures forall n :: n in r <==>
      exists x, d :: x in items && x.rootName in requested && d in x.dependencyNames && FirstSegment(d) == Some(n)
  {
    FirstSegments(AllDependencyNames(ItemsWithRoots(items, requested)))
  }

  /** `names.select { |x| items.map(&:root_name).include?(x) }` */
  function KnownRoots(names: seq<string>, items: seq<PodfileItem>): (r: seq<string>)
    ensures forall n :: n in r <==> n in names && n in RootNames(items)
    ensures (forall n :: n in names ==> n in RootNames(items)) ==> r == names
  {
    var test := n => n in RootNames(items);
    SelectKeepsAll(names, test);
    Select(names, test)
  }

  /** The root names the command works with: with `*` every root of the
      catalog; otherwise the resolved names plus the roots of their direct
      dependencies. Either way only catalog roots are kept, each once. */
  function ResolveArgumentPods(args: seq<string>, items: seq<PodfileItem>,
                               resolvePodNames: (seq<string>, seq<PodfileItem>) -> seq<string>): (r: seq<string>)
    ensures NoDups(r)
    ensures forall n :: n in r ==> n in RootNames(items)
  {
    var candidates :=
      if BuildAll(args) then Uniq(RootNames(items))
      else
        var named := resolvePodNames(args, items);
        Uniq(named + RequestedDependencyRoots(items, named));
    Uniq(KnownRoots(candidates, items))
  }

  /** With `*`, the arguments are the catalog's root names, each once, in
      the order they first appear in the catalog. */
  lemma ResolveAllIsCatalogRoots(args: seq<string>, items: seq<PodfileItem>,
                                 resolvePodNames: (seq<string>, seq<PodfileItem>) -> seq<string>)
    requires BuildAll(args)
    ensures ResolveArgumentPods(args, items, resolvePodNames) == Uniq(RootNames(items))
  {
    var roots := Uniq(RootNames(items));
    assert KnownRoots(roots, items) == roots;
    UniqOfNoDups(roots);
  }

  /** Without `*`, a name is kept exactly when it is a catalog root and was
      either resolved from the arguments or is the root of a dependency of
      a resolved catalog item. */
  lemma ResolveNamedArguments(args: seq<string>, items: seq<PodfileItem>,
                              resolvePodNames: (seq<string>, seq<PodfileItem>) -> seq<string>, n: string)
    requires !BuildAll(args)
    ensures var named := resolvePodNames(args, items);
      n in ResolveArgumentPods(args, items, resolvePodNames) <==>
        n in RootNames(items) && (n in named || n in RequestedDependencyRoots(items, named))
  {
  }

  // ---------------------------------------------------------------------
  // resolve_pods_to_build and other_subspecs

  /** Subspecs of the catalog not yet selected whose root is the root of a
      selected subspec. */
  function OtherSubspecs(podsToBuild: seq<PodfileItem>, buildableItems: seq<PodfileItem>): (r: seq<PodfileItem>)
    ensures forall x :: x in r <==>
      x in buildableItems && x.isSubspec && x !in podsToBuild &&
      exists s :: s in podsToBuild && s.isSubspec && s.rootName == x.rootName
  {
    var buildableSubspecs := Select(buildableItems, (x: PodfileItem) => x.isSubspec);
    var podsToBuildSubspecs := RootNames(Select(podsToBuild, (x: PodfileItem) => x.isSubspec));
    var siblings := ItemsWithRoots(buildableSubspecs, podsToBuildSubspecs);
    Difference(siblings, podsToBuild)
  }

  /** `resolve_pods_to_build`: the buildable items whose root was requested,
      followed by the sibling subspecs of the selected subspecs. */
  function ResolvePodsToBuild(argumentPods: seq<string>, buildableItems: seq<PodfileItem>): (r: seq<PodfileItem>)
  {
    var podsToBuild := ItemsWithRoots(buildableItems, argumentPods);
    podsToBuild + OtherSubspecs(podsToBuild, buildableItems)
  }

  /** The pods to build are buildable items; every buildable item with a
      requested root is among them; any other one is a subspec sharing its
      root with a selected subspec. */
  lemma ResolvePodsToBuildBounds(argumentPods: seq<string>, buildableItems: seq<PodfileItem>)
    ensures var r := ResolvePodsToBuild(argumentPods, buildableItems);
      && (forall x :: x in r ==> x in buildableItems)
      && (forall x :: x in buildableItems && x.rootName in argumentPods ==> x in r)
      && (forall x :: x in r ==> (x.rootName in argumentPods ||
           (x.isSubspec && exists s :: s in buildableItems && s.rootName in argumentPods && s.isSubspec
                                        && s.rootName == x.rootName && s != x)))
  {
  }

  /** A sibling of a selected subspec has the same root, which was requested,
      so it is selected already: `other_subspecs` never adds anything here,
      and the pods to build are exactly the buildable items with a requested root. */
  lemma ResolvePodsToBuildSelectsByRoot(argumentPods: seq<string>, buildableItems: seq<PodfileItem>)
    ensures OtherSubspecs(ItemsWithRoots(buildableItems, argumentPods), buildableItems) == []
    ensures ResolvePodsToBuild(argumentPods, buildableItems) == ItemsWithRoots(buildableItems, argumentPods)
  {
    var selected := ItemsWithRoots(buildableItems, argumentPods);
    var others := OtherSubspecs(selected, buildableItems);
    forall x | x in buildableItems && x !in selected
      ensures forall s :: s in selected ==> s.rootName != x.rootName
    {
    }
    assert forall x :: x !in others;
    NoMembersMeansEmpty(others);
    assert selected + [] == selected;
  }

  // ---------------------------------------------------------------------
  // Partitioning into build groups

  /** A subspec named in `Configuration.subspecs_to_split`. */
  predicate IsSplitSubspec(x: PodfileItem, subspecsToSplit: seq<string>) {
    x.isSubspec && x.name in subspecsToSplit
  }

  /** Some pod of `pods` lists `x`'s name among its dependency names. */
  predicate NamedAsDependency(x: PodfileItem, pods: seq<PodfileItem>) {
    x.name in AllDependencyNames(pods)
  }

  /** `pods.select { |x| x.is_subspec && subspecs_to_split.include?(x.name) }` */
  function SplitSubspecs(pods: seq<PodfileItem>, subspecsToSplit: seq<string>): (r: seq<PodfileItem>)
    ensures forall x :: x in r <==> x in pods && IsSplitSubspec(x, subspecsToSplit)
    ensures NoDups(pods) ==> NoDups(r) && OrderedIn(r, pods)
  {
    var test := (x: PodfileItem) => IsSplitSubspec(x, subspecsToSplit);
    SelectNoDups(pods, test);
    SelectOrdered(pods, test);
    Select(pods, test)
  }

  /** `pods.select { |x| !names.include?(x.name) }` */
  function WithoutNames(pods: seq<PodfileItem>, names: seq<string>): (r: seq<PodfileItem>)
    ensures forall x :: x in r <==> x in pods && x.name !in names
    ensures NoDups(pods) ==> NoDups(r) && OrderedIn(r, pods)
  {
    var test := (x: PodfileItem) => x.name !in names;
    SelectNoDups(pods, test);
    SelectOrdered(pods, test);
    Select(pods, test)
  }

  /** `pods.select { |x| x.build_configuration == "debug" }` */
  function DebugPods(pods: seq<PodfileItem>): (r: seq<PodfileItem>)
    ensures forall x :: x in r <==> x in pods && x.buildConfiguration == DebugConfiguration
    ensures NoDups(pods) ==> NoDups(r) && OrderedIn(r, pods)
  {
    var test := (x: PodfileItem) => x.buildConfiguration == DebugConfiguration;
    SelectNoDups(pods, test);
    SelectOrdered(pods, test);
    Select(pods, test)
  }

  /** The three kinds of group the pods to build are split into. */
  datatype Partition = Partition(subspecs: seq<PodfileItem>, debug: seq<PodfileItem>, release: seq<PodfileItem>)

  /** The split subspecs are picked before dependencies are dropped; of the
      rest, pods named as a dependency by any pod to build are dropped, and
      what remains goes to the debug group or, for any other configuration,
      the release group. */
  function PartitionPods(podsToBuild: seq<PodfileItem>, subspecsToSplit: seq<string>): (p: Partition)
    ensures forall x :: x in p.subspecs <==> x in podsToBuild && IsSplitSubspec(x, subspecsToSplit)
    ensures forall x :: x in p.debug <==>
      x in podsToBuild && !IsSplitSubspec(x, subspecsToSplit) && !NamedAsDependency(x, podsToBuild)
      && x.buildConfiguration == DebugConfiguration
    ensures forall x :: x in p.release <==>
      x in podsToBuild && !IsSplitSubspec(x, subspecsToSplit) && !NamedAsDependency(x, podsToBuild)
      && x.buildConfiguration != DebugConfiguration
    ensures NoDups(podsToBuild) ==> NoDups(p.subspecs) && NoDups(p.debug) && NoDups(p.release)
    ensures NoDups(podsToBuild) ==>
      OrderedIn(p.subspecs, podsToBuild) && OrderedIn(p.debug, podsToBuild) && OrderedIn(p.release, podsToBuild)
  {
    var subspecs := SplitSubspecs(podsToBuild, subspecsToSplit);
    var allDependenciesName := Uniq(AllDependencyNames(podsToBuild));
    var independent := WithoutNames(podsToBuild, allDependenciesName);
    assert forall x :: x in independent <==> x in podsToBuild && !NamedAsDependency(x, podsToBuild);
    var remaining := Difference(independent, subspecs);
    assert forall x :: x in remaining <==>
      x in podsToBuild && !NamedAsDependency(x, podsToBuild) && !IsSplitSubspec(x, subspecsToSplit);
    var debug := DebugPods(remaining);
    var release := Difference(remaining, debug);
    OrderedInTrans(remaining, independent, podsToBuild);
    OrderedInTrans(debug, remaining, podsToBuild);
    OrderedInTrans(release, remaining, podsToBuild);
    Partition(subspecs, debug, release)
  }

  /** `items.map { |x| [x] }` */
  function Singletons(items: seq<PodfileItem>): (r: seq<seq<PodfileItem>>)
    ensures |r| == |items| && forall k :: 0 <= k < |items| ==> r[k] == [items[k]]
  {
    if items == [] then [] else [[items[0]]] + Singletons(items[1..])
  }

  predicate NonEmpty(group: seq<PodfileItem>) {
    group != []
  }

  /** `groups.select { |x| x.count > 0 }` */
  function NonEmptyGroups(groups: seq<seq<PodfileItem>>): (r: seq<seq<PodfileItem>>)
    ensures forall g :: g in r <==> g in groups && g != []
    ensures forall k :: 0 <= k < |r| ==> r[k] != []
  {
    var r := Select(groups, NonEmpty);
    assert forall k :: 0 <= k < |r| ==> r[k] in r;
    r
  }

  /** `podfiles_items`: one singleton per split subspec, then the debug
      group, then the release group, with the empty ones left out. */
  function Groups(p: Partition): (groups: seq<seq<PodfileItem>>) {
    NonEmptyGroups(Singletons(p.subspecs) + [p.debug] + [p.release])
  }

  /** Selecting the non-empty groups keeps every singleton and drops an
      empty debug or release group. */
  lemma GroupsShape(p: Partition)
    ensures Groups(p) == Singletons(p.subspecs) + (if p.debug != [] then [p.debug] else [])
                                                + (if p.release != [] then [p.release] else [])
  {
    var singletons := Singletons(p.subspecs);
    SelectAppend(singletons + [p.debug], [p.release], NonEmpty);
    SelectAppend(singletons, [p.debug], NonEmpty);
    forall x | x in singletons ensures NonEmpty(x) {
      var k :| 0 <= k < |singletons| && singletons[k] == x;
    }
    SelectKeepsAll(singletons, NonEmpty);
    SelectSingle(p.debug, NonEmpty);
    SelectSingle(p.release, NonEmpty);
  }

  /** The groups come in build order (split subspecs, debug, release), none
      is empty, and an empty debug or release group is skipped. */
  lemma GroupsInOrder(p: Partition)
    ensures var g := Groups(p);
      && (forall k :: 0 <= k < |g| ==> g[k] != [])
      && |g| == |p.subspecs| + (if p.debug == [] then 0 else 1) + (if p.release == [] then 0 else 1)
      && (forall k :: 0 <= k < |p.subspecs| ==> g[k] == [p.subspecs[k]])
      && (p.debug != [] ==> g[|p.subspecs|] == p.debug)
      && (p.release != [] ==> g[|g| - 1] == p.release)
  {
    GroupsShape(p);
  }

  /** The three parts of the partition have no pod in common. */
  predicate Disjoint(p: Partition) {
    && NoDups(p.subspecs)
    && (forall y :: y in p.subspecs ==> y !in p.debug && y !in p.release)
    && (forall y :: y in p.debug ==> y !in p.release)
  }

  /** Partitioning a selection without duplicates gives disjoint parts. */
  lemma PartitionIsDisjoint(podsToBuild: seq<PodfileItem>, subspecsToSplit: seq<string>)
    requires NoDups(podsToBuild)
    ensures Disjoint(PartitionPods(podsToBuild, subspecsToSplit))
  {
  }

  /** Groups built from disjoint parts share no pod. */
  lemma GroupsOfDisjointPartition(p: Partition, k1: nat, k2: nat, x: PodfileItem)
    requires Disjoint(p)
    requires k1 < k2 < |Groups(p)| && x in Groups(p)[k1]
    ensures x !in Groups(p)[k2]
  {
    var g := Groups(p);
    var n := |p.subspecs|;
    GroupsInOrder(p);
    if k2 < n {
      assert g[k1] == [p.subspecs[k1]] && g[k2] == [p.subspecs[k2]];
    } else if k1 < n {
      assert x == p.subspecs[k1] && x in p.subspecs;
    } else {
      assert p.debug != [] && g[k1] == p.debug;
      assert p.release != [] && g[k2] == p.release;
    }
  }

  /** No pod is a member of two groups. */
  lemma GroupsAreDisjoint(podsToBuild: seq<PodfileItem>, subspecsToSplit: seq<string>,
                          k1: nat, k2: nat, x: PodfileItem)
    requires NoDups(podsToBuild)
    requires k1 < k2 < |Groups(PartitionPods(podsToBuild, subspecsToSplit))|
    requires x in Groups(PartitionPods(podsToBuild, subspecsToSplit))[k1]
    ensures x !in Groups(PartitionPods(podsToBuild, subspecsToSplit))[k2]
  {
    PartitionIsDisjoint(podsToBuild, subspecsToSplit);
    GroupsOfDisjointPartition(PartitionPods(podsToBuild, subspecsToSplit), k1, k2, x);
  }

  /** A member of a group comes from one of the three parts. */
  lemma GroupMembers(p: Partition, k: nat, x: PodfileItem)
    requires k < |Groups(p)| && x in Groups(p)[k]
    ensures x in p.subspecs || x in p.debug || x in p.release
  {
    GroupsInOrder(p);
    var n := |p.subspecs|;
    if k < n {
      assert x == p.subspecs[k];
    } else if p.debug != [] && k == n {
      assert x in p.debug;
    } else {
      assert x in p.release;
    }
  }

  /** Every pod to build is a split subspec, or is named as a dependency of
      a pod to build, or is a member of one of the groups. */
  lemma GroupsCoverPods(podsToBuild: seq<PodfileItem>, subspecsToSplit: seq<string>, x: PodfileItem)
    requires x in podsToBuild
    ensures var g := Groups(PartitionPods(podsToBuild, subspecsToSplit));
      NamedAsDependency(x, podsToBuild) || exists k :: 0 <= k < |g| && x in g[k]
  {
    var p := PartitionPods(podsToBuild, subspecsToSplit);
    var g := Groups(p);
    var n := |p.subspecs|;
    GroupsInOrder(p);
    if IsSplitSubspec(x, subspecsToSplit) {
      var k :| 0 <= k < n && p.subspecs[k] == x;
      assert x in g[k];
    } else if !NamedAsDependency(x, podsToBuild) {
      if x.buildConfiguration == DebugConfiguration {
        assert x in g[n];
      } else {
        assert x in g[|g| - 1];
      }
    }
  }
}
