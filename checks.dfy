/** The validations of `pod_builder build`. Each one only reads its inputs
    and decides whether the command goes on, warns, or raises. */
module Checks {
  import opened Lists
  import opened Pods

  // ---------------------------------------------------------------------
  // check_not_building_subspecs

  /** Raises on the first requested name that contains '/': subspecs cannot
      be requested, only their root. */
  function CheckNotBuildingSubspecs(pods: seq<string>): (v: Verdict)
    ensures !v.Warn?
    ensures v.Raise? ==> v.error.SubspecArgument?
    ensures v.Raise? <==> exists p :: p in pods && '/' in p
    ensures v.Raise? ==> exists i :: 0 <= i < |pods| && '/' in pods[i] && v.error == SubspecArgument(pods[i])
                                    && forall j :: 0 <= j < i ==> '/' !in pods[j]
  {
    SubspecArgumentFrom(pods, 0)
  }

  function SubspecArgumentFrom(pods: seq<string>, k: nat): (v: Verdict)
    requires k <= |pods|
    ensures !v.Warn?
    ensures v.Raise? <==> exists i :: k <= i < |pods| && '/' in pods[i]
    ensures v.Raise? ==> exists i :: k <= i < |pods| && '/' in pods[i] && v.error == SubspecArgument(pods[i])
                                    && forall j :: k <= j < i ==> '/' !in pods[j]
    decreases |pods| - k
  {
    if k == |pods| then Pass
    else if '/' in pods[k] then Raise(SubspecArgument(pods[k]))
    else
      var v := SubspecArgumentFrom(pods, k + 1);
      assert v.Raise? ==> v.error.SubspecArgument? && '/' in v.error.pod;
      v
  }

  // ---------------------------------------------------------------------
  // check_pods_exists

  /** Raises when there is no catalog at all, or on the first requested pod
      that is not the root name of a catalog entry. */
  function CheckPodsExists(pods: seq<string>, items: Option<seq<PodfileItem>>): (v: Verdict)
    ensures !v.Warn?
    ensures items.None? ==> v == Raise(EmptyPodfile)
    ensures items.Some? ==> (v.Raise? <==> exists p :: p in pods && p !in RootNames(items.value))
    ensures items.Some? && v.Raise? ==>
      exists i :: 0 <= i < |pods| && pods[i] !in RootNames(items.value) && v.error == PodNotFound(pods[i])
                  && forall j :: 0 <= j < i ==> pods[j] in RootNames(items.value)
  {
    match items
    case None => Raise(EmptyPodfile)
    case Some(catalog) =>
      var roots := RootNames(catalog);
      assert (exists p :: p in pods && p !in roots) <==> (exists i :: 0 <= i < |pods| && pods[i] !in roots);
      MissingPodFrom(pods, roots, 0)
  }

  function MissingPodFrom(pods: seq<string>, roots: seq<string>, k: nat): (v: Verdict)
    requires k <= |pods|
    ensures !v.Warn?
    ensures v.Raise? <==> exists i :: k <= i < |pods| && pods[i] !in roots
    ensures v.Raise? ==> exists i :: k <= i < |pods| && pods[i] !in roots && v.error == PodNotFound(pods[i])
                                    && forall j :: k <= j < i ==> pods[j] in roots
    decreases |pods| - k
  {
    if k == |pods| then Pass
    else if pods[k] !in roots then Raise(PodNotFound(pods[k]))
    else MissingPodFrom(pods, roots, k + 1)
  }

  // ---------------------------------------------------------------------
  // check_splitted_subspecs_are_static

  /** Some subspec configured to be split into its own target is not static. */
  predicate SplitsNonStaticSubspec(items: seq<PodfileItem>, subspecsToSplit: seq<string>) {
    exists x :: x in items && x.isSubspec && !x.isStatic && x.name in subspecsToSplit
  }

  function NonStaticSubspecNames(items: seq<PodfileItem>): (r: seq<string>)
    ensures forall n :: n in r <==> exists x :: x in items && x.isSubspec && !x.isStatic && x.name == n
  {
    Names(Select(items, (x: PodfileItem) => x.isSubspec && !x.isStatic))
  }

  /** Splitting a non-static subspec is unsafe: raises, or only warns when
      `allow_warnings` is truthy. The error names every such subspec once,
      in the order of the configuration. */
  function CheckSplittedSubspecsAreStatic(items: seq<PodfileItem>, subspecsToSplit: seq<string>,
                                          allowWarnings: Option<bool>): (v: Verdict)
    ensures v.Pass? <==> !SplitsNonStaticSubspec(items, subspecsToSplit)
    ensures v.Warn? <==> SplitsNonStaticSubspec(items, subspecsToSplit) && Truthy(allowWarnings)
    ensures v.Raise? <==> SplitsNonStaticSubspec(items, subspecsToSplit) && !Truthy(allowWarnings)
    ensures !v.Pass? ==> v.error.NonStaticSplitSubspecs? && NoDups(v.error.names)
    ensures !v.Pass? ==> forall n :: n in v.error.names <==>
      n in subspecsToSplit && exists x :: x in items && x.isSubspec && !x.isStatic && x.name == n
  {
    var invalidSubspecs := Intersect(subspecsToSplit, NonStaticSubspecNames(items));
    assert |invalidSubspecs| > 0 ==> invalidSubspecs[0] in invalidSubspecs;
    if |invalidSubspecs| == 0 then Pass
    else if Truthy(allowWarnings) then Warn(NonStaticSplitSubspecs(invalidSubspecs))
    else Raise(NonStaticSplitSubspecs(invalidSubspecs))
  }

  // ---------------------------------------------------------------------
  // check_dependencies_build_configurations

  /** `other` depends on a name that `pod` also depends on, and neither of
      them regards that name as part of its own common spec. */
  predicate ShareDependency(pod: PodfileItem, other: PodfileItem, hasCommonSpec: (PodfileItem, string) -> bool) {
    exists y :: y in other.dependencyNames && y in pod.dependencyNames && !hasCommonSpec(pod, y) && !hasCommonSpec(other, y)
  }

  /** Every two distinct pods that share a dependency have the same build configuration. */
  predicate Aligned(pods: seq<PodfileItem>, hasCommonSpec: (PodfileItem, string) -> bool) {
    forall p, q :: p in pods && q in pods && p != q && ShareDependency(p, q, hasCommonSpec) ==>
      p.buildConfiguration == q.buildConfiguration
  }

  /** The pods that `pod`'s check reports: `pods - [pod]`, then those with a
      dependency among `pod`'s non-common-spec dependencies that is not part
      of their own common spec, then those whose build configuration differs
      from `pod`'s; the three selections are applied together, in order. */
  function UnalignedWith(pods: seq<PodfileItem>, pod: PodfileItem, hasCommonSpec: (PodfileItem, string) -> bool)
    : (r: seq<PodfileItem>)
  {
    if pods == [] then []
    else
      var x := pods[0];
      var reported := x != pod && ShareDependency(pod, x, hasCommonSpec) && x.buildConfiguration != pod.buildConfiguration;
      (if reported then [x] else []) + UnalignedWith(pods[1..], pod, hasCommonSpec)
  }

  /** Exactly the other pods sharing a dependency with `pod` under a
      different build configuration are reported for it. */
  lemma {:induction false} UnalignedWithMembers(pods: seq<PodfileItem>, pod: PodfileItem,
                                                hasCommonSpec: (PodfileItem, string) -> bool)
    ensures forall x :: x in UnalignedWith(pods, pod, hasCommonSpec) <==>
      x in pods && x != pod && ShareDependency(pod, x, hasCommonSpec) && x.buildConfiguration != pod.buildConfiguration
  {
    if pods != [] {
      UnalignedWithMembers(pods[1..], pod, hasCommonSpec);
      assert pods == [pods[0]] + pods[1..];
    }
  }

  /** Goes through the pods in order and raises for the first one that has
      unaligned partners, naming them. */
  function CheckDependenciesBuildConfigurations(pods: seq<PodfileItem>, hasCommonSpec: (PodfileItem, string) -> bool)
    : (v: Verdict)
    ensures !v.Warn?
    ensures v.Raise? ==> v.error.UnalignedBuildConfiguration?
  {
    AlignmentFrom(pods, hasCommonSpec, 0)
  }

  function AlignmentFrom(pods: seq<PodfileItem>, hasCommonSpec: (PodfileItem, string) -> bool, k: nat): (v: Verdict)
    requires k <= |pods|
    ensures !v.Warn?
    ensures v.Raise? ==> v.error.UnalignedBuildConfiguration?
    decreases |pods| - k
  {
    if k == |pods| then Pass
    else
      var unaligned := UnalignedWith(pods, pods[k], hasCommonSpec);
      if unaligned != [] then Raise(UnalignedBuildConfiguration(pods[k].name, Names(unaligned)))
      else AlignmentFrom(pods, hasCommonSpec, k + 1)
  }

  /** The check passes exactly when the pods are aligned. */
  lemma AlignmentCheckPassesIffAligned(pods: seq<PodfileItem>, hasCommonSpec: (PodfileItem, string) -> bool)
    ensures CheckDependenciesBuildConfigurations(pods, hasCommonSpec).Pass? <==> Aligned(pods, hasCommonSpec)
  {
    if CheckDependenciesBuildConfigurations(pods, hasCommonSpec).Pass? {
      forall p, q | p in pods && q in pods && p != q && ShareDependency(p, q, hasCommonSpec)
        ensures p.buildConfiguration == q.buildConfiguration
      {
        var i :| 0 <= i < |pods| && pods[i] == p;
        NothingUnalignedFrom(pods, hasCommonSpec, 0, i);
        UnalignedWithMembers(pods, p, hasCommonSpec);
      }
    } else {
      var i := FirstUnaligned(pods, hasCommonSpec, 0);
      var unaligned := UnalignedWith(pods, pods[i], hasCommonSpec);
      UnalignedWithMembers(pods, pods[i], hasCommonSpec);
      assert unaligned[0] in unaligned;
      assert !Aligned(pods, hasCommonSpec) by {
        var q := unaligned[0];
        assert pods[i] in pods && q in pods && pods[i] != q && ShareDependency(pods[i], q, hasCommonSpec);
      }
    }
  }

  lemma {:induction false} NothingUnalignedFrom(pods: seq<PodfileItem>, hasCommonSpec: (PodfileItem, string) -> bool,
                                                k: nat, i: nat)
    requires k <= i < |pods| && AlignmentFrom(pods, hasCommonSpec, k).Pass?
    ensures UnalignedWith(pods, pods[i], hasCommonSpec) == []
    decreases i - k
  {
    AlignmentStep(pods, hasCommonSpec, k);
    if k < i {
      NothingUnalignedFrom(pods, hasCommonSpec, k + 1, i);
    }
  }

  /** A pass from position `k` on means pod `k` has no unaligned partners
      and the check passes from `k + 1` on. */
  lemma AlignmentStep(pods: seq<PodfileItem>, hasCommonSpec: (PodfileItem, string) -> bool, k: nat)
    requires k < |pods| && AlignmentFrom(pods, hasCommonSpec, k).Pass?
    ensures UnalignedWith(pods, pods[k], hasCommonSpec) == [] && AlignmentFrom(pods, hasCommonSpec, k + 1).Pass?
  {
  }

  /** When the check does not pass, it raises for the first pod (from
      position `k` on) that has unaligned partners, and names those partners. */
  function FirstUnaligned(pods: seq<PodfileItem>, hasCommonSpec: (PodfileItem, string) -> bool, k: nat): (i: nat)
    requires k <= |pods| && !AlignmentFrom(pods, hasCommonSpec, k).Pass?
    ensures k <= i < |pods| && UnalignedWith(pods, pods[i], hasCommonSpec) != []
    ensures forall j :: k <= j < i ==> UnalignedWith(pods, pods[j], hasCommonSpec) == []
    ensures AlignmentFrom(pods, hasCommonSpec, k)
         == Raise(UnalignedBuildConfiguration(pods[i].name, Names(UnalignedWith(pods, pods[i], hasCommonSpec))))
    decreases |pods| - k
  {
    if UnalignedWith(pods, pods[k], hasCommonSpec) != [] then k else FirstUnaligned(pods, hasCommonSpec, k + 1)
  }

  /** Reporting is mutual: if `p` reports `q`, then `q` reports `p`. */
  lemma UnalignedIsMutual(pods: seq<PodfileItem>, p: PodfileItem, q: PodfileItem,
                          hasCommonSpec: (PodfileItem, string) -> bool)
    requires p in pods && q in UnalignedWith(pods, p, hasCommonSpec)
    ensures p in UnalignedWith(pods, q, hasCommonSpec)
  {
    UnalignedWithMembers(pods, p, hasCommonSpec);
    UnalignedWithMembers(pods, q, hasCommonSpec);
    var y :| y in q.dependencyNames && y in p.dependencyNames && !hasCommonSpec(p, y) && !hasCommonSpec(q, y);
    assert ShareDependency(q, p, hasCommonSpec);
  }

  /** Only pods sharing a dependency are compared: a debug pod `A` and a
      release pod `B` that depends directly on `A` pass the check. */
  lemma DirectDependencyIsNotCompared(hasCommonSpec: (PodfileItem, string) -> bool)
    ensures var a := PodfileItem("A", "A", [], false, true, false, false, "debug");
            var b := PodfileItem("B", "B", ["A"], false, true, false, false, "release");
            CheckDependenciesBuildConfigurations([a, b], hasCommonSpec) == Pass
  {
    var a := PodfileItem("A", "A", [], false, true, false, false, "debug");
    var b := PodfileItem("B", "B", ["A"], false, true, false, false, "release");
    AlignmentCheckPassesIffAligned([a, b], hasCommonSpec);
  }

  // ---------------------------------------------------------------------
  // check_not_building_development_pods

  function DevelopmentPodNames(pods: seq<PodfileItem>): (r: seq<string>)
    ensures forall n :: n in r <==> exists x :: x in pods && x.isDevelopmentPod && x.name == n
  {
    Names(Select(pods, (x: PodfileItem) => x.isDevelopmentPod))
  }

  /** Refuses to build pods in development mode, unless `allow_warnings` is
      present at all (any value, even false) or the configuration allows it. */
  function CheckNotBuildingDevelopmentPods(pods: seq<PodfileItem>, allowWarnings: Option<bool>,
                                           allowBuildingDevelopmentPods: bool): (v: Verdict)
    ensures !v.Warn?
    ensures v.Raise? <==> (exists x :: x in pods && x.isDevelopmentPod) && allowWarnings.None? && !allowBuildingDevelopmentPods
    ensures v.Raise? ==> v.error == DevelopmentPods(DevelopmentPodNames(pods))
  {
    var developmentPods := DevelopmentPodNames(pods);
    assert |developmentPods| > 0 ==> developmentPods[0] in developmentPods;
    if |developmentPods| > 0 && allowWarnings.None? && !allowBuildingDevelopmentPods then
      Raise(DevelopmentPods(developmentPods))
    else Pass
  }

  /** The two checks read `allow_warnings` differently: given explicitly as
      false, it does not excuse a non-static split subspec but does excuse
      development pods. */
  lemma ExplicitFalseAllowWarnings(items: seq<PodfileItem>, subspecsToSplit: seq<string>,
                                   pods: seq<PodfileItem>, allowBuildingDevelopmentPods: bool)
    requires SplitsNonStaticSubspec(items, subspecsToSplit)
    ensures CheckSplittedSubspecsAreStatic(items, subspecsToSplit, Some(false)).Raise?
    ensures CheckNotBuildingDevelopmentPods(pods, Some(false), allowBuildingDevelopmentPods) == Pass
  {
  }
}
