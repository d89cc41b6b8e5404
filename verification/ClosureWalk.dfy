/** The provider closure walk of `scanPublishedImports` (publish-imports-check.ts): per exports key, a
    breadth-first walk from the key's packed script targets over every static import, reporting what
    an install of the packed files would be missing. */
module ClosureWalk {
  import opened Wrappers
  import opened PackedResolver

  datatype Violation =
    | UnparseableFile(path: string)
    | MissingExport(specifier: string, subpath: string, path: string, line: nat)
    | MissingFile(exportsKey: string, importer: string, missing: string)

  // ----- what one file points at

  function LocalTargets(targets: seq<string>): seq<string> {
    if targets == [] then []
    else
      var last := targets[|targets| - 1];
      LocalTargets(targets[..|targets| - 1]) + if "./" <= last then [PackedPath(last)] else []
  }

  function PackedPaths(targets: seq<string>): (r: seq<string>)
    ensures |r| == |targets|
  {
    seq(|targets|, i requires 0 <= i < |targets| => PackedPath(targets[i]))
  }

  /** The paths inside the package an import stands for, packed or not. */
  function Points(p: Provider, importer: string, s: Specifier): seq<string> {
    match s
    case Unparseable => []
    case Import(specifier, _) =>
      match Resolve(p, importer, specifier)
      case Self(targets) => PackedPaths(targets)
      case Imports(targets) => LocalTargets(targets)
      case Relative(path) => [path]
      case Missing(path) => [path]
      case SelfMissing(_) => []
      case External => []
  }

  function PackedOf(p: Provider, paths: seq<string>): (r: seq<string>)
    ensures forall f :: f in r <==> f in paths && f in p.packed
  {
    if paths == [] then []
    else
      var last := paths[|paths| - 1];
      PackedOf(p, paths[..|paths| - 1]) + if last in p.packed then [last] else []
  }

  function MissingOf(p: Provider, key: string, importer: string, paths: seq<string>): (r: seq<Violation>)
    ensures forall v ::
              v in r <==>
                && v.MissingFile? && v.exportsKey == key && v.importer == importer
                && v.missing in paths && v.missing !in p.packed
  {
    if paths == [] then []
    else
      var last := paths[|paths| - 1];
      MissingOf(p, key, importer, paths[..|paths| - 1]) + if last in p.packed then []
          else [MissingFile(key, importer, last)]
  }

  function FullPath(p: Provider, file: string): string { p.directory + "/" + file }

  /** Everything one import has reported, before identical findings are dropped. */
  function SpecifierReports(p: Provider, key: string, file: string, s: Specifier): seq<Violation> {
    match s
    case Unparseable => [UnparseableFile(FullPath(p, file))]
    case Import(specifier, line) =>
      (var r := Resolve(p, file, specifier);
       if r.SelfMissing? then [MissingExport(specifier, r.subpath, FullPath(p, file), line)] else [])
      + MissingOf(p, key, file, Points(p, file, s))
  }

  function ReportsOf(p: Provider, key: string, file: string, specifiers: seq<Specifier>): seq<Violation> {
    if specifiers == [] then []
    else
      ReportsOf(p, key, file, specifiers[..|specifiers| - 1])
      + SpecifierReports(p, key, file, specifiers[|specifiers| - 1])
  }

  function EdgesOf(p: Provider, file: string, specifiers: seq<Specifier>): seq<string> {
    if specifiers == [] then []
    else EdgesOf(p, file, specifiers[..|specifiers| - 1]) + PackedOf(p, Points(p, file, specifiers[|specifiers| - 1]))
  }

  /** A file that is not a script is a leaf. */
  function Edges(p: Provider, file: string): seq<string> {
    if IsScript(file) then EdgesOf(p, file, p.scan(file)) else []
  }

  function FileReports(p: Provider, key: string, file: string): seq<Violation> {
    if IsScript(file) then ReportsOf(p, key, file, p.scan(file)) else []
  }

  // ----- breadth first

  predicate Distinct<T(==)>(s: seq<T>) {
    forall i, j :: 0 <= i < j < |s| ==> s[i] != s[j]
  }

  function Push(seen: seq<string>, x: string): seq<string> {
    if x in seen then seen else seen + [x]
  }

  function PushAll(seen: seq<string>, xs: seq<string>): (r: seq<string>)
    ensures |seen| <= |r| && r[..|seen|] == seen
    ensures Distinct(seen) ==> Distinct(r)
    ensures forall x :: x in r <==> x in seen || x in xs
  {
    if xs == [] then seen else Push(PushAll(seen, xs[..|xs| - 1]), xs[|xs| - 1])
  }

  function PackedSet(p: Provider): set<string> { set f | f in p.packed }

  lemma {:induction false} DistinctBound(s: seq<string>, u: set<string>)
    requires Distinct(s) && forall x :: x in s ==> x in u
    ensures |s| <= |u|
  {
    if s != [] {
      var init, last := s[..|s| - 1], s[|s| - 1];
      DistinctBound(init, u - {last});
    }
  }

  ghost predicate IsFrontier(p: Provider, seen: seq<string>) {
    Distinct(seen) && forall f :: f in seen ==> f in p.packed
  }

  lemma FrontierStep(p: Provider, seen: seq<string>, file: string)
    requires IsFrontier(p, seen)
    ensures IsFrontier(p, PushAll(seen, Edges(p, file)))
    ensures |seen| <= |PackedSet(p)|
  {
    DistinctBound(seen, PackedSet(p));
    if IsScript(file) {
      EdgesArePacked(p, file, p.scan(file));
    }
  }

  lemma {:induction false} EdgesArePacked(p: Provider, file: string, specifiers: seq<Specifier>)
    ensures forall f :: f in EdgesOf(p, file, specifiers) ==> f in p.packed
  {
    if specifiers != [] {
      EdgesArePacked(p, file, specifiers[..|specifiers| - 1]);
    }
  }

  /** Files in the order they enter the queue, `at` of them already taken off. */
  ghost function Walk(p: Provider, seen: seq<string>, at: nat): (r: seq<string>)
    requires IsFrontier(p, seen) && at <= |seen|
    ensures IsFrontier(p, r) && |seen| <= |r| && r[..|seen|] == seen
    decreases |PackedSet(p)| - at
  {
    if at == |seen| then seen
    else
      FrontierStep(p, seen, seen[at]);
      Walk(p, PushAll(seen, Edges(p, seen[at])), at + 1)
  }

  /** The key's targets that are packed scripts, each once. */
  function Seeds(p: Provider, e: Entry): (r: seq<string>)
    ensures IsFrontier(p, r)
    ensures forall f :: f in r <==> f in PackedPaths(e.targets) && f in p.packed && IsScript(f)
  {
    ScriptsOf(p, PushAll([], PackedPaths(e.targets)))
  }

  function ScriptsOf(p: Provider, files: seq<string>): (r: seq<string>)
    ensures forall f :: f in r <==> f in files && f in p.packed && IsScript(f)
    ensures Distinct(files) ==> Distinct(r)
  {
    if files == [] then []
    else
      var last := files[|files| - 1];
      ScriptsOf(p, files[..|files| - 1]) + if last in p.packed && IsScript(last) then [last] else []
  }

  ghost function Visited(p: Provider, e: Entry): (r: seq<string>)
    ensures IsFrontier(p, r)
  {
    Walk(p, Seeds(p, e), 0)
  }

  // ----- all reports, and the identical ones dropped

  ghost function WalkReports(p: Provider, key: string, files: seq<string>): seq<Violation> {
    if files == [] then []
    else WalkReports(p, key, files[..|files| - 1]) + FileReports(p, key, files[|files| - 1])
  }

  ghost function AllReports(p: Provider, entries: seq<Entry>): seq<Violation> {
    if entries == [] then []
    else
      var last := entries[|entries| - 1];
      AllReports(p, entries[..|entries| - 1]) + WalkReports(p, last.key, Visited(p, last))
  }

  /** The text a missing file is known by. */
  function Identity(v: Violation): string
    requires v.MissingFile?
  {
    v.exportsKey + "|" + v.importer + "|" + v.missing
  }

  datatype Log = Log(violations: seq<Violation>, identities: set<string>)

  const EMPTY := Log([], {})

  function Add(log: Log, v: Violation): Log {
    if !v.MissingFile? then Log(log.violations + [v], log.identities)
    else if Identity(v) in log.identities then log
    else Log(log.violations + [v], log.identities + {Identity(v)})
  }

  function AddAll(log: Log, vs: seq<Violation>): Log {
    if vs == [] then log else Add(AddAll(log, vs[..|vs| - 1]), vs[|vs| - 1])
  }

  lemma {:induction false} AddAllAppend(log: Log, a: seq<Violation>, b: seq<Violation>)
    ensures AddAll(log, a + b) == AddAll(AddAll(log, a), b)
  {
    if b == [] {
      assert a + b == a;
    } else {
      AddAllAppend(log, a, b[..|b| - 1]);
      assert (a + b)[..|a + b| - 1] == a + b[..|b| - 1];
    }
  }

  lemma AddAllOne(log: Log, v: Violation)
    ensures AddAll(log, [v]) == Add(log, v) && AddAll(log, []) == log
  {
    assert [v][..0] == [];
    assert AddAll(log, []) == log;
  }

  lemma {:induction false} PushAllAppend(seen: seq<string>, a: seq<string>, b: seq<string>)
    ensures PushAll(seen, a + b) == PushAll(PushAll(seen, a), b)
  {
    if b == [] {
      assert a + b == a;
    } else {
      PushAllAppend(seen, a, b[..|b| - 1]);
      assert (a + b)[..|a + b| - 1] == a + b[..|b| - 1];
    }
  }

  lemma PushAllOne(seen: seq<string>, x: string)
    ensures PushAll(seen, [x]) == Push(seen, x) && PushAll(seen, []) == seen
  {
    assert [x][..0] == [];
    assert PushAll(seen, []) == seen;
  }

  function Scripts(files: seq<string>): set<string> {
    set f | f in files && IsScript(f)
  }

  /** The files any walk parses. */
  ghost function Parsed(p: Provider, entries: seq<Entry>): set<string> {
    set f | f in p.packed && IsScript(f) && exists e :: e in entries && f in Visited(p, e)
  }

  // ----- the walk as it runs

  class Scan {
    const p: Provider
    var violations: seq<Violation>
    var closureMissing: set<string>
    var closureCache: map<string, seq<Specifier>>
    var providerClosureFiles: nat
    var visited: set<string>
    var queue: seq<string>
    /** Everything that has entered the queue of the current walk, in order. */
    ghost var seen: seq<string>

    constructor (p: Provider)
      ensures this.p == p && Valid() && seen == [] && queue == []
      ensures CurrentLog() == EMPTY && closureCache.Keys == {}
    {
      this.p := p;
      violations, closureMissing, closureCache, providerClosureFiles := [], {}, map[], 0;
      visited, queue, seen := {}, [], [];
    }

    ghost function CurrentLog(): Log
      reads this`violations, this`closureMissing
    {
      Log(violations, closureMissing)
    }

    /** The cache holds what parsing gives, one parse each; the queue is the tail of what was seen. */
    ghost predicate Valid()
      reads this
    {
      && (forall f :: f in closureCache ==> closureCache[f] == p.scan(f))
      && providerClosureFiles == |closureCache|
      && (forall f :: f in visited <==> f in seen)
      && |queue| <= |seen| && queue == seen[|seen| - |queue|..]
    }

    method ReportClosureMissing(exportsKey: string, importer: string, missing: string)
      requires Valid()
      modifies this`violations, this`closureMissing
      ensures Valid() && CurrentLog() == Add(old(CurrentLog()), MissingFile(exportsKey, importer, missing))
    {
      var identity := exportsKey + "|" + importer + "|" + missing;
      if identity in closureMissing {
        return;
      }
      closureMissing := closureMissing + {identity};
      violations := violations + [MissingFile(exportsKey, importer, missing)];
    }

    method Enqueue(target: string)
      requires Valid()
      modifies this`visited, this`queue, this`seen
      ensures Valid() && seen == Push(old(seen), target)
      ensures |seen| - |queue| == old(|seen| - |queue|)
    {
      if target !in visited {
        visited := visited + {target};
        queue := queue + [target];
        seen := seen + [target];
      }
    }

    /** One target of a `self` or `imports` resolution. */
    method FollowTarget(exportsKey: string, current: string, target: string)
      requires Valid()
      modifies this`violations, this`closureMissing, this`visited, this`queue, this`seen
      ensures Valid() && |seen| - |queue| == old(|seen| - |queue|)
      ensures CurrentLog() == AddAll(old(CurrentLog()), MissingOf(p, exportsKey, current, [target]))
      ensures seen == PushAll(old(seen), PackedOf(p, [target]))
    {
      AddAllOne(CurrentLog(), MissingFile(exportsKey, current, target));
      PushAllOne(seen, target);
      assert [target][..0] == [];
      if target !in p.packed {
        ReportClosureMissing(exportsKey, current, target);
      } else {
        Enqueue(target);
      }
    }

    method Report(v: Violation)
      requires Valid() && !v.MissingFile?
      modifies this`violations
      ensures Valid() && CurrentLog() == AddAll(old(CurrentLog()), [v])
    {
      AddAllOne(CurrentLog(), v);
      violations := violations + [v];
    }

    /** One collected specifier of the file being visited. */
    method FollowSpecifier(exportsKey: string, current: string, s: Specifier)
      requires Valid()
      modifies this`violations, this`closureMissing, this`visited, this`queue, this`seen
      ensures Valid() && |seen| - |queue| == old(|seen| - |queue|)
      ensures CurrentLog() == AddAll(old(CurrentLog()), SpecifierReports(p, exportsKey, current, s))
      ensures seen == PushAll(old(seen), PackedOf(p, Points(p, current, s)))
    {
      hide *;
      NothingMore(CurrentLog(), seen);
      match s
      case Unparseable =>
        UnparseableCase(p, exportsKey, current);
        Report(UnparseableFile(FullPath(p, current)));
      case Import(specifier, line) =>
        ImportCases(p, exportsKey, current, specifier, line);
        var resolution := Resolve(p, current, specifier);
        match resolution
        case External =>
        case SelfMissing(subpath) =>
          Report(MissingExport(specifier, subpath, FullPath(p, current), line));
        case Self(targets) =>
          FollowSelf(exportsKey, current, targets);
        case Imports(targets) =>
          FollowImports(exportsKey, current, targets);
        case Relative(path) =>
          PushAllOne(seen, path);
          Enqueue(path);
        case Missing(path) =>
          AddAllOne(CurrentLog(), MissingFile(exportsKey, current, path));
          ReportClosureMissing(exportsKey, current, path);
    }

    method FollowSelf(exportsKey: string, current: string, targets: seq<string>)
      requires Valid()
      modifies this`violations, this`closureMissing, this`visited, this`queue, this`seen
      ensures Valid() && |seen| - |queue| == old(|seen| - |queue|)
      ensures CurrentLog() == AddAll(old(CurrentLog()), MissingOf(p, exportsKey, current, PackedPaths(targets)))
      ensures seen == PushAll(old(seen), PackedOf(p, PackedPaths(targets)))
    {
      hide AddAll, PushAll, MissingOf, PackedOf, PackedPath, CurrentLog;
      ghost var log, start, paths := CurrentLog(), seen, PackedPaths(targets);
      NothingFollowed(p, exportsKey, current, log, start);
      for i := 0 to |targets|
        invariant Valid() && |seen| - |queue| == old(|seen| - |queue|)
        invariant CurrentLog() == AddAll(log, MissingOf(p, exportsKey, current, paths[..i]))
        invariant seen == PushAll(start, PackedOf(p, paths[..i]))
      {
        FollowStep(p, exportsKey, current, paths[..i], paths[i], log, start);
        assert paths[..i] + [paths[i]] == paths[..i + 1];
        FollowTarget(exportsKey, current, PackedPath(targets[i]));
      }
      assert paths[..|targets|] == paths;
    }

    method FollowImports(exportsKey: string, current: string, targets: seq<string>)
      requires Valid()
      modifies this`violations, this`closureMissing, this`visited, this`queue, this`seen
      ensures Valid() && |seen| - |queue| == old(|seen| - |queue|)
      ensures CurrentLog() == AddAll(old(CurrentLog()), MissingOf(p, exportsKey, current, LocalTargets(targets)))
      ensures seen == PushAll(old(seen), PackedOf(p, LocalTargets(targets)))
    {
      hide AddAll, PushAll, MissingOf, PackedOf, PackedPath, LocalTargets, CurrentLog;
      ghost var log, start := CurrentLog(), seen;
      NothingFollowed(p, exportsKey, current, log, start);
      for i := 0 to |targets|
        invariant Valid() && |seen| - |queue| == old(|seen| - |queue|)
        invariant CurrentLog() == AddAll(log, MissingOf(p, exportsKey, current, LocalTargets(targets[..i])))
        invariant seen == PushAll(start, PackedOf(p, LocalTargets(targets[..i])))
      {
        LocalStep(targets, i);
        if "./" <= targets[i] {
          FollowStep(p, exportsKey, current, LocalTargets(targets[..i]), PackedPath(targets[i]), log, start);
          FollowTarget(exportsKey, current, PackedPath(targets[i]));
        }
      }
      assert targets[..|targets|] == targets;
    }

    /** A file taken off the queue: read and parsed at most once over all walks. */
    method VisitFile(exportsKey: string, current: string)
      requires Valid()
      modifies this
      ensures Valid() && |seen| - |queue| == old(|seen| - |queue|)
      ensures closureCache.Keys == old(closureCache.Keys) + if IsScript(current) then {current} else {}
      ensures CurrentLog() == AddAll(old(CurrentLog()), FileReports(p, exportsKey, current))
      ensures seen == PushAll(old(seen), Edges(p, current))
    {
      if !IsScript(current) {
        NothingMore(CurrentLog(), seen);
        return;
      }
      if current !in closureCache {
        closureCache := closureCache[current := p.scan(current)];
        providerClosureFiles := providerClosureFiles + 1;
      }
      FollowAll(exportsKey, current, closureCache[current]);
    }

    method FollowAll(exportsKey: string, current: string, collected: seq<Specifier>)
      requires Valid()
      modifies this`violations, this`closureMissing, this`visited, this`queue, this`seen
      ensures Valid() && |seen| - |queue| == old(|seen| - |queue|)
      ensures CurrentLog() == AddAll(old(CurrentLog()), ReportsOf(p, exportsKey, current, collected))
      ensures seen == PushAll(old(seen), EdgesOf(p, current, collected))
    {
      hide *;
      ghost var log, start := CurrentLog(), seen;
      NothingScanned(p, exportsKey, current, log, start);
      for i := 0 to |collected|
        invariant Valid() && |seen| - |queue| == old(|seen| - |queue|)
        invariant CurrentLog() == AddAll(log, ReportsOf(p, exportsKey, current, collected[..i]))
        invariant seen == PushAll(start, EdgesOf(p, current, collected[..i]))
      {
        ScanStep(p, exportsKey, current, collected, i, log, start);
        FollowSpecifier(exportsKey, current, collected[i]);
      }
      assert collected[..|collected|] == collected;
    }

    /** One exports key, with its own `visited` and `queue`. */
    method WalkKey(e: Entry)
      requires Valid()
      modifies this
      ensures Valid()
      ensures CurrentLog() == AddAll(old(CurrentLog()), WalkReports(p, e.key, Visited(p, e)))
      ensures closureCache.Keys == old(closureCache.Keys) + Scripts(Visited(p, e))
    {
      hide *;
      ghost var log, cached := CurrentLog(), closureCache.Keys;
      var seedTargets := Seeds(p, e);
      StartWalk(p, e, log, cached);
      if seedTargets == [] {
        return;
      }
      Restart(seedTargets);
      ghost var at: nat := 0;
      while queue != []
        invariant Valid() && at == |seen| - |queue| && IsFrontier(p, seen)
        invariant Walk(p, seen, at) == Visited(p, e)
        invariant CurrentLog() == AddAll(log, WalkReports(p, e.key, seen[..at]))
        invariant closureCache.Keys == cached + Scripts(seen[..at])
        decreases |PackedSet(p)| - at
      {
        WalkStep(p, e.key, seen, at, log, cached);
        var current := TakeFirst();
        VisitFile(e.key, current);
        at := at + 1;
      }
      EndWalk(p, seen);
      assert seen[..at] == seen;
    }

    method Restart(seedTargets: seq<string>)
      requires Valid()
      modifies this`visited, this`queue, this`seen
      ensures Valid() && seen == queue == seedTargets
    {
      visited := set f | f in seedTargets;
      queue, seen := seedTargets, seedTargets;
    }

    method TakeFirst() returns (current: string)
      requires Valid() && queue != []
      modifies this`queue
      ensures Valid() && |queue| == old(|queue|) - 1 && current == seen[|seen| - old(|queue|)]
    {
      current := queue[0];
      queue := queue[1..];
    }

    /** All keys, one after another, sharing the cache and the dropped findings. */
    method Run()
      requires Valid() && CurrentLog() == EMPTY && closureCache.Keys == {}
      modifies this
      ensures Valid()
      ensures violations == AddAll(EMPTY, AllReports(p, p.exports)).violations
      ensures closureCache.Keys == Parsed(p, p.exports) && providerClosureFiles == |Parsed(p, p.exports)|
    {
      hide AddAll, AllReports, Parsed, Visited, WalkReports, Scripts, CurrentLog;
      NoEntries(p);
      for i := 0 to |p.exports|
        invariant Valid()
        invariant CurrentLog() == AddAll(EMPTY, AllReports(p, p.exports[..i]))
        invariant closureCache.Keys == Parsed(p, p.exports[..i])
      {
        EntryStep(p, i);
        WalkKey(p.exports[i]);
      }
      assert p.exports[..|p.exports|] == p.exports;
      assert CurrentLog().violations == violations by {
        LogIs();
      }
    }

    lemma LogIs()
      ensures CurrentLog().violations == violations
    {}
  }

  lemma StartWalk(p: Provider, e: Entry, log: Log, cached: set<string>)
    ensures Walk(p, Seeds(p, e), 0) == Visited(p, e)
    ensures forall s: seq<string> :: s[..0] == []
    ensures AddAll(log, WalkReports(p, e.key, [])) == log && cached + Scripts([]) == cached
    ensures Seeds(p, e) == [] ==> Visited(p, e) == []
  {
    hide Seeds;
  }

  lemma WalkStep(p: Provider, key: string, seen: seq<string>, at: nat, log: Log, cached: set<string>)
    requires IsFrontier(p, seen) && at < |seen|
    ensures var next := PushAll(seen, Edges(p, seen[at]));
            && IsFrontier(p, next) && at < |next| && next[..at] == seen[..at]
            && at < |PackedSet(p)|
            && Walk(p, seen, at) == Walk(p, next, at + 1)
            && AddAll(log, WalkReports(p, key, next[..at + 1]))
                 == AddAll(AddAll(log, WalkReports(p, key, seen[..at])), FileReports(p, key, seen[at]))
            && cached + Scripts(next[..at + 1]) == cached + Scripts(seen[..at])
                 + (if IsScript(seen[at]) then {seen[at]} else {})
  {
    hide AddAll, Edges, FileReports, IsScript, PushAll;
    var next := PushAll(seen, Edges(p, seen[at]));
    FrontierStep(p, seen, seen[at]);
    assert next[..|seen|] == seen;
    assert next[..at + 1] == seen[..at] + [seen[at]];
    assert next[..at + 1][..at] == seen[..at];
    AddAllAppend(log, WalkReports(p, key, seen[..at]), FileReports(p, key, seen[at]));
  }

  lemma EndWalk(p: Provider, seen: seq<string>)
    requires IsFrontier(p, seen)
    ensures Walk(p, seen, |seen|) == seen
  {}

  lemma NoEntries(p: Provider)
    ensures forall s: seq<Entry> :: s[..0] == []
    ensures AddAll(EMPTY, AllReports(p, [])) == EMPTY && Parsed(p, []) == {}
  {}

  lemma EntryStep(p: Provider, i: nat)
    requires i < |p.exports|
    ensures var e := p.exports[i];
            && AddAll(EMPTY, AllReports(p, p.exports[..i + 1]))
                 == AddAll(AddAll(EMPTY, AllReports(p, p.exports[..i])), WalkReports(p, e.key, Visited(p, e)))
            && Parsed(p, p.exports[..i + 1]) == Parsed(p, p.exports[..i]) + Scripts(Visited(p, e))
  {
    hide AddAll, Visited, WalkReports, IsScript;
    var e := p.exports[i];
    assert p.exports[..i + 1] == p.exports[..i] + [e] && p.exports[..i + 1][..i] == p.exports[..i];
    AddAllAppend(EMPTY, AllReports(p, p.exports[..i]), WalkReports(p, e.key, Visited(p, e)));
  }

  lemma UnparseableCase(p: Provider, key: string, file: string)
    ensures SpecifierReports(p, key, file, Unparseable) == [UnparseableFile(FullPath(p, file))]
    ensures PackedOf(p, Points(p, file, Unparseable)) == []
  {}

  lemma ImportCases(p: Provider, key: string, file: string, specifier: string, line: nat)
    ensures var reports := SpecifierReports(p, key, file, Import(specifier, line));
            var edges := PackedOf(p, Points(p, file, Import(specifier, line)));
            var r := Resolve(p, file, specifier);
            && (r.External? ==> reports == [] && edges == [])
            && (r.SelfMissing? ==>
                 reports == [MissingExport(specifier, r.subpath, FullPath(p, file), line)] && edges == [])
            && (r.Self? ==>
                 && reports == MissingOf(p, key, file, PackedPaths(r.targets))
                 && edges == PackedOf(p, PackedPaths(r.targets)))
            && (r.Imports? ==>
                 && reports == MissingOf(p, key, file, LocalTargets(r.targets))
                 && edges == PackedOf(p, LocalTargets(r.targets)))
            && (r.Relative? ==> reports == [] && edges == [r.path])
            && (r.Missing? ==> reports == [MissingFile(key, file, r.path)] && edges == [])
  {
    hide Resolve, Points, MissingOf, PackedOf;
    var s := Import(specifier, line);
    var r := Resolve(p, file, specifier);
    PointsCases(p, file, specifier, line);
    NoPaths(p, key, file);
    RelativeIsPacked(p, file, specifier);
    MissingIsUnpacked(p, file, specifier);
    if r.Relative? {
      OnePath(p, key, file, r.path);
    } else if r.Missing? {
      OnePath(p, key, file, r.path);
    }
  }

  lemma NoPaths(p: Provider, key: string, file: string)
    ensures MissingOf(p, key, file, []) == [] && PackedOf(p, []) == []
  {}

  lemma PointsCases(p: Provider, file: string, specifier: string, line: nat)
    ensures var r, points := Resolve(p, file, specifier), Points(p, file, Import(specifier, line));
            && (r.External? || r.SelfMissing? ==> points == [])
            && (r.Self? ==> points == PackedPaths(r.targets))
            && (r.Imports? ==> points == LocalTargets(r.targets))
            && (r.Relative? || r.Missing? ==> points == [r.path])
  {
    hide Resolve;
  }

  lemma LocalStep(targets: seq<string>, i: nat)
    requires i < |targets|
    ensures LocalTargets(targets[..i + 1]) ==
              if "./" <= targets[i] then LocalTargets(targets[..i]) + [PackedPath(targets[i])]
                  else LocalTargets(targets[..i])
  {
    assert targets[..i + 1][..i] == targets[..i];
  }

  lemma NothingScanned(p: Provider, key: string, file: string, log: Log, seen: seq<string>)
    ensures AddAll(log, ReportsOf(p, key, file, [])) == log && PushAll(seen, EdgesOf(p, file, [])) == seen
  {}

  lemma ScanStep(p: Provider, key: string, file: string, specifiers: seq<Specifier>, i: nat, log: Log,
                 seen: seq<string>)
    requires i < |specifiers|
    ensures AddAll(log, ReportsOf(p, key, file, specifiers[..i + 1]))
         == AddAll(AddAll(log, ReportsOf(p, key, file, specifiers[..i])), SpecifierReports(p, key, file, specifiers[i]))
    ensures PushAll(seen, EdgesOf(p, file, specifiers[..i + 1]))
         == PushAll(PushAll(seen, EdgesOf(p, file, specifiers[..i])), PackedOf(p, Points(p, file, specifiers[i])))
  {
    hide AddAll, PushAll, SpecifierReports, PackedOf, Points;
    assert specifiers[..i + 1][..i] == specifiers[..i];
    AddAllAppend(log, ReportsOf(p, key, file, specifiers[..i]), SpecifierReports(p, key, file, specifiers[i]));
    PushAllAppend(seen, EdgesOf(p, file, specifiers[..i]), PackedOf(p, Points(p, file, specifiers[i])));
  }

  lemma NothingMore(log: Log, seen: seq<string>)
    ensures AddAll(log, []) == log && PushAll(seen, []) == seen
  {}

  lemma NothingFollowed(p: Provider, key: string, importer: string, log: Log, seen: seq<string>)
    ensures AddAll(log, MissingOf(p, key, importer, [])) == log && PushAll(seen, PackedOf(p, [])) == seen
    ensures LocalTargets([]) == []
  {}

  lemma OnePath(p: Provider, key: string, importer: string, path: string)
    ensures MissingOf(p, key, importer, [path]) == if path in p.packed then [] else [MissingFile(key, importer, path)]
    ensures PackedOf(p, [path]) == if path in p.packed then [path] else []
  {
    assert [path][..0] == [];
  }

  lemma RelativeIsPacked(p: Provider, importer: string, specifier: string)
    ensures Resolve(p, importer, specifier).Relative? ==> Resolve(p, importer, specifier).path in p.packed
  {
    StartsWith(specifier, "./");
    StartsWith(specifier, "../");
    if IsRelative(specifier) {
      var rest :| specifier in {"./" + rest, "../" + rest};
      RelativeResolves(p, importer, specifier, rest);
    }
  }

  lemma MissingIsUnpacked(p: Provider, importer: string, specifier: string)
    ensures Resolve(p, importer, specifier).Missing? ==> Resolve(p, importer, specifier).path !in p.packed
  {
    StartsWith(specifier, "./");
    StartsWith(specifier, "../");
    if IsRelative(specifier) {
      var rest :| specifier in {"./" + rest, "../" + rest};
      RelativeResolves(p, importer, specifier, rest);
    }
  }

  lemma FollowStep(p: Provider, key: string, importer: string, paths: seq<string>, x: string, log: Log,
                   seen: seq<string>)
    ensures AddAll(log, MissingOf(p, key, importer, paths + [x]))
              == AddAll(AddAll(log, MissingOf(p, key, importer, paths)), MissingOf(p, key, importer, [x]))
    ensures PushAll(seen, PackedOf(p, paths + [x])) == PushAll(PushAll(seen, PackedOf(p, paths)), PackedOf(p, [x]))
  {
    hide AddAll, PushAll;
    SnocPath(p, key, importer, paths, x);
    hide *;
    AddAllAppend(log, MissingOf(p, key, importer, paths), MissingOf(p, key, importer, [x]));
    PushAllAppend(seen, PackedOf(p, paths), PackedOf(p, [x]));
  }

  lemma SnocPath(p: Provider, key: string, importer: string, paths: seq<string>, x: string)
    ensures MissingOf(p, key, importer, paths + [x]) == MissingOf(p, key, importer, paths)
              + MissingOf(p, key, importer, [x])
    ensures PackedOf(p, paths + [x]) == PackedOf(p, paths) + PackedOf(p, [x])
  {
    assert (paths + [x])[..|paths|] == paths;
    OnePath(p, key, importer, x);
  }
}
