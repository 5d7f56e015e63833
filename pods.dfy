/** The catalog entries the build command works on, the configuration it
    reads, the services it calls but does not define, and the outcome of
    each validation. */
module Pods {
  import opened Lists

  /** One entry of the Podfile's catalog, as the analyzer produces it. */
  datatype PodfileItem = PodfileItem(
    name: string,               // `Root` or `Root/Sub`
    rootName: string,           // the name without the subspec part
    dependencyNames: seq<string>,
    isSubspec: bool,
    isStatic: bool,
    isPrebuilt: bool,
    isDevelopmentPod: bool,
    buildConfiguration: string) // "debug" puts the pod in the debug group, anything else in the release group

  const DebugConfiguration: string := "debug"

  /** The configuration values and command line options the command reads:
      `Configuration.subspecs_to_split`,
      `Configuration.allow_building_development_pods` and
      `OPTIONS[:allow_warnings]`, which is absent (None) unless the flag was given. */
  datatype BuildOptions = BuildOptions(
    subspecsToSplit: seq<string>,
    allowBuildingDevelopmentPods: bool,
    allowWarnings: Option<bool>)

  /** Ruby truthiness of an optional flag: only a present `true` is truthy. */
  predicate Truthy(flag: Option<bool>) {
    flag == Some(true)
  }

  /** Services defined elsewhere in the program; the model knows nothing of
      them beyond their types.
      - resolvePodNames: `Podfile::resolve_pod_names(names, items)`
      - hasCommonSpec: `item.has_common_spec(dependency_name)`
      - recursiveDependencies: `item.recursive_dependencies(items)` */
  datatype Collaborators = Collaborators(
    resolvePodNames: (seq<string>, seq<PodfileItem>) -> seq<string>,
    hasCommonSpec: (PodfileItem, string) -> bool,
    recursiveDependencies: (PodfileItem, seq<PodfileItem>) -> seq<PodfileItem>)

  /** The exceptions the command raises, with the names they report. */
  datatype BuildError =
    | SubspecArgument(pod: string)
    | EmptyPodfile
    | PodNotFound(pod: string)
    | NonStaticSplitSubspecs(names: seq<string>)
    | UnalignedBuildConfiguration(pod: string, names: seq<string>)
    | DevelopmentPods(names: seq<string>)

  /** What a validation decides: go on, go on after a warning, or raise. */
  datatype Verdict = Pass | Warn(error: BuildError) | Raise(error: BuildError)

  /** `items.map(&:root_name)` */
  function RootNames(items: seq<PodfileItem>): (r: seq<string>)
    ensures |r| == |items|
    ensures forall n :: n in r <==> exists x :: x in items && x.rootName == n
  {
    if items == [] then []
    else
      assert items == [items[0]] + items[1..];
      [items[0].rootName] + RootNames(items[1..])
  }

  /** `items.map(&:name)` */
  function Names(items: seq<PodfileItem>): (r: seq<string>)
    ensures |r| == |items|
    ensures forall n :: n in r <==> exists x :: x in items && x.name == n
  {
    if items == [] then []
    else
      assert items == [items[0]] + items[1..];
      [items[0].name] + Names(items[1..])
  }

  /** `items.map(&:dependency_names).flatten` */
  function AllDependencyNames(items: seq<PodfileItem>): (r: seq<string>)
    ensures forall n :: n in r <==> exists x :: x in items && n in x.dependencyNames
  {
    if items == [] then []
    else
      assert items == [items[0]] + items[1..];
      items[0].dependencyNames + AllDependencyNames(items[1..])
  }

  predicate OnlySlashes(s: string) {
    forall i :: 0 <= i < |s| ==> s[i] == '/'
  }

  /** The characters of `s` before its first '/'. */
  function BeforeSlash(s: string): (r: string)
    ensures r <= s && '/' !in r
    ensures |r| < |s| ==> s[|r|] == '/'
  {
    if s == [] || s[0] == '/' then [] else [s[0]] + BeforeSlash(s[1..])
  }

  /** `s.split("/").first`. Ruby's split drops trailing empty fields, so a
      name made only of slashes (or empty) splits into nothing and `first`
      is nil (None); otherwise the first field is what precedes the first '/'. */
  function FirstSegment(s: string): (r: Option<string>)
    ensures r.None? <==> OnlySlashes(s)
    ensures r.Some? ==> r.value <= s && '/' !in r.value && (|r.value| < |s| ==> s[|r.value|] == '/')
  {
    if OnlySlashes(s) then None else Some(BeforeSlash(s))
  }

  /** A root name followed by a subspec path splits back into that root name. */
  lemma {:induction false} FirstSegmentOfSubspecName(root: string, sub: string)
    requires '/' !in root && !OnlySlashes(root + "/" + sub)
    ensures FirstSegment(root + "/" + sub) == Some(root)
  {
    BeforeSlashOfPrefix(root, sub);
  }

  lemma {:induction false} BeforeSlashOfPrefix(root: string, sub: string)
    requires '/' !in root
    ensures BeforeSlash(root + "/" + sub) == root
  {
    var s := root + "/" + sub;
    if root == [] {
      assert s[0] == '/';
    } else {
      assert s[0] == root[0] && root[0] != '/';
      assert s[1..] == root[1..] + "/" + sub;
      BeforeSlashOfPrefix(root[1..], sub);
      assert [root[0]] + root[1..] == root;
    }
  }

  /** A name without '/' is its own first segment. */
  lemma {:induction false} FirstSegmentOfRootName(root: string)
    requires '/' !in root && root != []
    ensures FirstSegment(root) == Some(root)
  {
    BeforeSlashOfPlainName(root);
  }

  lemma {:induction false} BeforeSlashOfPlainName(root: string)
    requires '/' !in root
    ensures BeforeSlash(root) == root
  {
    if root != [] {
      assert '/' !in root[1..] by {
        forall i | 0 <= i < |root[1..]| ensures root[1..][i] != '/' {
          assert root[1..][i] == root[i + 1];
        }
      }
      BeforeSlashOfPlainName(root[1..]);
      assert [root[0]] + root[1..] == root;
    }
  }

  /** `names.map { |t| t.split("/").first }` with the nil entries dropped.
      A nil entry can never equal a catalog root name, and the command keeps
      only catalog root names, so dropping them here changes no result. */
  function FirstSegments(names: seq<string>): (r: seq<string>)
    ensures forall n :: n in r <==> exists d :: d in names && FirstSegment(d) == Some(n)
  {
    if names == [] then []
    else
      assert names == [names[0]] + names[1..];
      match FirstSegment(names[0])
      case Some(root) => [root] + FirstSegments(names[1..])
      case None => FirstSegments(names[1..])
  }
}
