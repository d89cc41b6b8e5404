/** `publishablePackages` of release.ts, from parsed manifests to the order packages are published in. */
module PublishOrder {
  import opened Wrappers
  import opened LayeredOrder

  /** A manifest after `JSON.parse`; a name that is not a string is None. */
  datatype Manifest = Manifest(path: string, name: Option<string>, isPrivate: bool,
                               dependencies: set<string>, peerDependencies: set<string>)

  datatype Package = Package(name: string, manifestPath: string, directory: string)

  datatype PublishError = NoName(path: string) | DependencyCycle

  predicate IsNamed(m: Manifest) { m.name.Some? && m.name.value != "" }

  function Candidate(m: Manifest): Item
    requires IsNamed(m)
  {
    Item(m.name.value, m.dependencies + m.peerDependencies, m.path)
  }

  const PACKAGE_JSON := "package.json"

  predicate EndsWith(s: string, suffix: string) {
    |s| >= |suffix| && s[|s| - |suffix|..] == suffix
  }

  /** `path.replace(/(^|\/)package\.json$/, '') || '.'` */
  function Directory(path: string): string {
    var stripped :=
      if EndsWith(path, "/" + PACKAGE_JSON) then path[..|path| - |PACKAGE_JSON| - 1]
      else if path == PACKAGE_JSON then ""
      else path;
    if stripped == "" then "." else stripped
  }

  lemma BelowDirectory(dir: string)
    ensures Directory(dir + "/package.json") == if dir == "" then "." else dir
  {
    var path, tail := dir + "/package.json", "/package.json";
    assert "/" + PACKAGE_JSON == tail;
    assert path[|path| - |tail|..] == tail && path[..|path| - |tail|] == dir;
  }

  lemma OtherPath(path: string)
    requires path != "" && path != "package.json" && forall d :: path != d + "/package.json"
    ensures Directory(path) == path
  {
    var tail := "/package.json";
    assert "/" + PACKAGE_JSON == tail;
    assert !EndsWith(path, tail) by {
      var k := |path| - |tail|;
      assert k >= 0 ==> path == path[..k] + path[k..];
    }
  }

  /** The directory is where the manifest lies, the root's is `.`, and a path that is no manifest's is
      left alone. */
  lemma DirectoryOfManifest(dir: string, path: string)
    requires path != ""
    ensures Directory(dir + "/package.json") == (if dir == "" then "." else dir) && Directory("package.json") == "."
    ensures path != "package.json" && (forall d :: path != d + "/package.json") ==> Directory(path) == path
  {
    BelowDirectory(dir);
    RootDirectory();
    hide Directory, EndsWith;
    if path != "package.json" && forall d :: path != d + "/package.json" {
      OtherPath(path);
    }
  }

  lemma RootDirectory()
    ensures Directory("package.json") == "."
  {}

  /** The non-private manifests as candidates, or the first manifest without a name. */
  function Candidates(ms: seq<Manifest>): (r: Result<seq<Item>, PublishError>)
  {
    if ms == [] then Ok([])
    else if !IsNamed(ms[0]) then Err(NoName(ms[0].path))
    else
      match Candidates(ms[1..])
      case Err(e) => Err(e)
      case Ok(rest) => Ok((if ms[0].isPrivate then [] else [Candidate(ms[0])]) + rest)
  }

  function Packages(ordered: seq<Item>): seq<Package> {
    seq(|ordered|, i requires 0 <= i < |ordered| =>
      Package(ordered[i].name, ordered[i].origin, Directory(ordered[i].origin)))
  }

  function Publishable(ms: seq<Manifest>): Result<seq<Package>, PublishError> {
    match Candidates(ms)
    case Err(e) => Err(e)
    case Ok(candidates) =>
      match Sort(candidates)
      case Err(_) => Err(DependencyCycle)
      case Ok(ordered) => Ok(Packages(ordered))
  }

  method PublishablePackages(ms: seq<Manifest>) returns (r: Result<seq<Package>, PublishError>)
    ensures r == Publishable(ms)
  {
    var candidates := Candidates(ms);
    if candidates.Err? {
      return Err(candidates.error);
    }
    var ordered := LayeredSort(candidates.value);
    if ordered.Err? {
      return Err(DependencyCycle);
    }
    return Ok(Packages(ordered.value));
  }

  ghost predicate FirstUnnamed(ms: seq<Manifest>, k: nat) {
    k < |ms| && !IsNamed(ms[k]) && forall j :: 0 <= j < k ==> IsNamed(ms[j])
  }

  ghost predicate IsCandidate(ms: seq<Manifest>, x: Item) {
    exists m :: m in ms && IsNamed(m) && !m.isPrivate && x == Candidate(m)
  }

  lemma CandidateCons(m: Manifest, rest: seq<Manifest>, x: Item)
    ensures IsCandidate([m] + rest, x) <==> (IsNamed(m) && !m.isPrivate && x == Candidate(m)) || IsCandidate(rest, x)
  {
    if IsNamed(m) && !m.isPrivate && x == Candidate(m) {
      assert m in [m] + rest;
    }
    if IsCandidate(rest, x) {
      var m' :| m' in rest && IsNamed(m') && !m'.isPrivate && x == Candidate(m');
      assert m' in [m] + rest;
    }
  }

  /** Which manifests are candidates: every named non-private one, unless some manifest has no name,
      and then the first such is the error. */
  lemma {:induction false} CandidatesMean(ms: seq<Manifest>)
    ensures match Candidates(ms)
            case Ok(items) => (forall m :: m in ms ==> IsNamed(m)) && (forall x :: x in items <==> IsCandidate(ms, x))
            case Err(e) => exists k: nat :: FirstUnnamed(ms, k) && e == NoName(ms[k].path)
  {
    hide IsCandidate;
    if ms == [] {
      forall x ensures !IsCandidate(ms, x) {
        NoCandidate(x);
      }
    } else if !IsNamed(ms[0]) {
      assert FirstUnnamed(ms, 0);
    } else {
      CandidatesMean(ms[1..]);
      assert ms == [ms[0]] + ms[1..];
      if Candidates(ms[1..]).Err? {
        var k: nat :| FirstUnnamed(ms[1..], k) && Candidates(ms[1..]).error == NoName(ms[1..][k].path);
        assert FirstUnnamed(ms, k + 1) by {
          assert forall j :: 0 < j < |ms| ==> ms[j] == ms[1..][j - 1];
        }
      } else {
        forall x ensures x in Candidates(ms).value <==> IsCandidate(ms, x) {
          CandidateCons(ms[0], ms[1..], x);
        }
      }
    }
  }

  lemma NoCandidate(x: Item)
    ensures !IsCandidate([], x)
  {}

  /** Every non-private manifest is published once, after all the publishable packages it depends on. */
  lemma PublishesInDependencyOrder(ms: seq<Manifest>) returns (order: seq<Item>)
    requires Publishable(ms).Ok?
    ensures Candidates(ms).Ok? && multiset(order) == multiset(Candidates(ms).value)
    ensures Publishable(ms).value == Packages(order)
    ensures forall i, j :: 0 <= i < |order| && 0 <= j < |order| && order[i].name in order[j].dependsOn ==> i < j
  {
    SortSound(Candidates(ms).value);
    order := Sort(Candidates(ms).value).value;
  }

  /** A publishable manifest needs another when it names it among its dependencies or its peer
      dependencies. */
  ghost predicate Needs(m: Manifest, other: Manifest) {
    other.name.Some? && (other.name.value in m.dependencies || other.name.value in m.peerDependencies)
  }

  function PackageOf(m: Manifest): Package
    requires m.name.Some?
  {
    Package(m.name.value, m.path, Directory(m.path))
  }

  /** Whenever anything is published at all, every manifest has a name, and what is published are the
      packages of the manifests that are not private. */
  lemma PublishesEvery(ms: seq<Manifest>, x: Package)
    requires Publishable(ms).Ok?
    ensures forall m :: m in ms ==> m.name.Some? && m.name.value != ""
    ensures x in Publishable(ms).value <==> exists m :: m in ms && m.name.Some? && !m.isPrivate && x == PackageOf(m)
  {
    CandidatesMean(ms);
    var order := PublishesInDependencyOrder(ms);
    var items := Candidates(ms).value;
    if x in Publishable(ms).value {
      var k :| 0 <= k < |order| && Packages(order)[k] == x;
      assert order[k] in multiset(order);
      assert order[k] in items && IsCandidate(ms, order[k]);
    }
    if m :| m in ms && m.name.Some? && !m.isPrivate && x == PackageOf(m) {
      assert IsCandidate(ms, Candidate(m));
      assert Candidate(m) in multiset(order);
      var k :| 0 <= k < |order| && order[k] == Candidate(m);
      assert Packages(order)[k] == x;
    }
  }

  /** Each manifest is a file of its own. Whoever needs another publishable one is published after it. */
  lemma PublishesNeededFirst(ms: seq<Manifest>, i: nat, j: nat, m: Manifest, other: Manifest)
    requires Publishable(ms).Ok? && forall a, b :: a in ms && b in ms && a.path == b.path ==> a == b
    requires m in ms && other in ms && m.name.Some? && Needs(m, other)
    requires i < |Publishable(ms).value| && Publishable(ms).value[i] == PackageOf(other)
    requires j < |Publishable(ms).value| && Publishable(ms).value[j] == PackageOf(m)
    ensures i < j
  {
    CandidatesMean(ms);
    var order := PublishesInDependencyOrder(ms);
    assert order[i] in multiset(order) && order[j] in multiset(order);
    assert IsCandidate(ms, order[i]) && IsCandidate(ms, order[j]);
    assert order[j] == Candidate(m) && order[i] == Candidate(other);
  }

  /** Whatever part of the order has been published when publishing stops, no published package waits
      for one that is not. */
  lemma PrefixHasDependencies(ms: seq<Manifest>, published: seq<Package>) returns (order: seq<Item>)
    requires Publishable(ms).Ok? && published <= Publishable(ms).value
    ensures multiset(order) == multiset(Candidates(ms).value) && published <= Packages(order)
    ensures forall i, j :: 0 <= i < |published| && 0 <= j < |order| && order[j].name in order[i].dependsOn ==>
              j < |published| && published[j].name == order[j].name
  {
    order := PublishesInDependencyOrder(ms);
  }

  /** Publishing stops over a cycle exactly when every manifest has a name and the candidates have no
      layering; with distinct names, exactly when their dependencies have a cycle. */
  lemma PublishThrows(ms: seq<Manifest>)
    ensures Publishable(ms) == Err(DependencyCycle) <==>
              Candidates(ms).Ok? && !exists layer :: Layering(Candidates(ms).value, layer)
    ensures Candidates(ms).Ok? && DistinctNames(Candidates(ms).value) ==>
              (Publishable(ms) == Err(DependencyCycle) <==> !Acyclic(Candidates(ms).value))
  {
    hide Layering, Acyclic, Sort;
    CandidatesMean(ms);
    if Candidates(ms).Ok? {
      var items := Candidates(ms).value;
      ReturnsIffLayering(items);
      if DistinctNames(items) {
        ThrowsIffCycle(items);
      }
    }
  }
}
