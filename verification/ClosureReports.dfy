/** What the closure walk's findings mean: which files it visits, when it finds nothing, and which
    findings survive the dropping of identical ones. */
module ClosureReports {
  import opened Wrappers
  import opened PackedResolver
  import opened ClosureWalk

  // ----- visited means reachable

  /** Files from a seed of the key, each statically imported by the one before. */
  ghost predicate IsRoute(p: Provider, e: Entry, route: seq<string>) {
    && route != []
    && route[0] in Seeds(p, e)
    && forall i :: 0 <= i < |route| - 1 ==> route[i + 1] in Edges(p, route[i])
  }

  ghost predicate Reachable(p: Provider, e: Entry, file: string) {
    exists route :: IsRoute(p, e, route) && route[|route| - 1] == file
  }

  lemma ReachableStep(p: Provider, e: Entry, file: string, next: string)
    requires Reachable(p, e, file) && next in Edges(p, file)
    ensures Reachable(p, e, next)
  {
    hide Seeds, Edges;
    var route :| IsRoute(p, e, route) && route[|route| - 1] == file;
    assert IsRoute(p, e, route + [next]);
  }

  lemma SeedReachable(p: Provider, e: Entry, file: string)
    requires file in Seeds(p, e)
    ensures Reachable(p, e, file)
  {
    hide Seeds;
    assert IsRoute(p, e, [file]);
  }

  lemma {:induction false} WalkReaches(p: Provider, e: Entry, seen: seq<string>, at: nat)
    requires IsFrontier(p, seen) && at <= |seen| && forall f :: f in seen ==> Reachable(p, e, f)
    ensures forall f :: f in Walk(p, seen, at) ==> Reachable(p, e, f)
    decreases |PackedSet(p)| - at
  {
    hide Reachable, Edges;
    if at < |seen| {
      FrontierStep(p, seen, seen[at]);
      var next := PushAll(seen, Edges(p, seen[at]));
      forall f | f in next ensures Reachable(p, e, f) {
        if f !in seen {
          ReachableStep(p, e, seen[at], f);
        }
      }
      WalkReaches(p, e, next, at + 1);
    }
  }

  lemma {:induction false} WalkCloses(p: Provider, seen: seq<string>, at: nat)
    requires IsFrontier(p, seen) && at <= |seen|
    requires forall i, f :: 0 <= i < at && f in Edges(p, seen[i]) ==> f in seen
    ensures forall f :: f in seen ==> f in Walk(p, seen, at)
    ensures forall g, f :: g in Walk(p, seen, at) && f in Edges(p, g) ==> f in Walk(p, seen, at)
    decreases |PackedSet(p)| - at
  {
    hide Edges, PushAll;
    if at < |seen| {
      FrontierStep(p, seen, seen[at]);
      var next := PushAll(seen, Edges(p, seen[at]));
      assert next[..|seen|] == seen;
      assert forall i :: 0 <= i < |seen| ==> next[i] == next[..|seen|][i];
      WalkCloses(p, next, at + 1);
    } else {
      forall g, f | g in seen && f in Edges(p, g) ensures f in seen {
        var i :| 0 <= i < |seen| && seen[i] == g;
      }
    }
  }

  lemma {:induction false} RouteStays(p: Provider, e: Entry, files: seq<string>, route: seq<string>, k: nat)
    requires (forall f :: f in Seeds(p, e) ==> f in files)
               && forall g, f :: g in files && f in Edges(p, g) ==> f in files
    requires IsRoute(p, e, route) && k < |route|
    ensures route[k] in files
  {
    if k > 0 {
      RouteStays(p, e, files, route, k - 1);
      assert route[k - 1 + 1] in Edges(p, route[k - 1]);
    }
  }

  lemma RouteTo(p: Provider, e: Entry, file: string) returns (route: seq<string>)
    requires Reachable(p, e, file)
    ensures IsRoute(p, e, route) && route[|route| - 1] == file
  {
    route :| IsRoute(p, e, route) && route[|route| - 1] == file;
  }

  /** A key's walk visits exactly what is reachable from its seeds, each file once, all of it packed. */
  lemma VisitedIsReachable(p: Provider, e: Entry, file: string)
    ensures file in Visited(p, e) <==> Reachable(p, e, file)
    ensures Distinct(Visited(p, e)) && (file in Visited(p, e) ==> file in p.packed)
  {
    hide Walk, Edges, Seeds, Reachable;
    forall f | f in Seeds(p, e) ensures Reachable(p, e, f) {
      SeedReachable(p, e, f);
    }
    WalkReaches(p, e, Seeds(p, e), 0);
    WalkCloses(p, Seeds(p, e), 0);
    if Reachable(p, e, file) {
      var route := RouteTo(p, e, file);
      RouteStays(p, e, Visited(p, e), route, |route| - 1);
    }
  }

  // ----- no findings

  /** The import parses and everything it points at inside the package is packed. */
  ghost predicate Satisfied(p: Provider, importer: string, s: Specifier) {
    && s.Import?
    && !Resolve(p, importer, s.specifier).SelfMissing?
    && forall f :: f in Points(p, importer, s) ==> f in p.packed
  }

  ghost predicate Clean(p: Provider, file: string) {
    IsScript(file) ==> forall s :: s in p.scan(file) ==> Satisfied(p, file, s)
  }

  lemma SatisfiedIffQuiet(p: Provider, key: string, file: string, s: Specifier)
    ensures SpecifierReports(p, key, file, s) == [] <==> Satisfied(p, file, s)
  {
    hide Resolve, Points;
    if s.Import? {
      var missing := MissingOf(p, key, file, Points(p, file, s));
      if missing != [] {
        assert missing[0] in missing;
      }
      forall f | f in Points(p, file, s) && f !in p.packed ensures missing != [] {
        assert MissingFile(key, file, f) in missing;
      }
    }
  }

  lemma {:induction false} CleanIffNoReports(p: Provider, key: string, file: string, specifiers: seq<Specifier>)
    ensures ReportsOf(p, key, file, specifiers) == [] <==> forall s :: s in specifiers ==> Satisfied(p, file, s)
  {
    hide SpecifierReports, Satisfied;
    if specifiers != [] {
      var init, last := specifiers[..|specifiers| - 1], specifiers[|specifiers| - 1];
      assert specifiers == init + [last];
      CleanIffNoReports(p, key, file, init);
      SatisfiedIffQuiet(p, key, file, last);
    }
  }

  lemma FileQuiet(p: Provider, key: string, file: string)
    ensures FileReports(p, key, file) == [] <==> Clean(p, file)
  {
    hide ReportsOf, Satisfied, IsScript;
    CleanIffNoReports(p, key, file, p.scan(file));
  }

  lemma {:induction false} WalkQuiet(p: Provider, key: string, files: seq<string>)
    ensures WalkReports(p, key, files) == [] <==> forall f :: f in files ==> Clean(p, f)
  {
    hide FileReports, Clean;
    if files != [] {
      var init, last := files[..|files| - 1], files[|files| - 1];
      assert files == init + [last];
      WalkQuiet(p, key, init);
      FileQuiet(p, key, last);
    }
  }

  /** The closure of one key is complete: every script reachable from its seeds parses, and each of its
      imports stays inside the package only to packed files. */
  ghost predicate Complete(p: Provider, e: Entry) {
    forall f :: Reachable(p, e, f) ==> Clean(p, f)
  }

  /** One key alone: its walk has nothing to report exactly when its closure is complete. */
  lemma KeyQuietIffComplete(p: Provider, e: Entry)
    ensures WalkReports(p, e.key, Visited(p, e)) == [] <==> Complete(p, e)
  {
    hide Visited, Reachable, Clean, WalkReports;
    forall f ensures f in Visited(p, e) <==> Reachable(p, e, f) {
      VisitedIsReachable(p, e, f);
    }
    WalkQuiet(p, e.key, Visited(p, e));
  }

  lemma {:induction false} AllQuiet(p: Provider, entries: seq<Entry>)
    ensures AllReports(p, entries) == [] <==> forall e :: e in entries ==> Complete(p, e)
  {
    hide Complete, Visited, WalkReports;
    if entries != [] {
      var init, last := entries[..|entries| - 1], entries[|entries| - 1];
      assert entries == init + [last];
      AllQuiet(p, init);
      KeyQuietIffComplete(p, last);
    }
  }

  lemma {:induction false} LogGrows(log: Log, vs: seq<Violation>)
    ensures |log.violations| <= |AddAll(log, vs).violations|
    ensures log == EMPTY && vs != [] ==> AddAll(log, vs).violations != []
  {
    if vs != [] {
      LogGrows(log, vs[..|vs| - 1]);
      if |vs| == 1 {
        assert vs[..0] == [];
      }
    }
  }

  /** The findings the scan ends with. */
  ghost function Findings(p: Provider): seq<Violation> {
    AddAll(EMPTY, AllReports(p, p.exports)).violations
  }

  /** The check passes exactly when every key's closure is complete. */
  lemma NoFindingsIffComplete(p: Provider)
    ensures Findings(p) == [] <==> forall e :: e in p.exports ==> Complete(p, e)
  {
    hide Complete, AllReports;
    AllQuiet(p, p.exports);
    LogGrows(EMPTY, AllReports(p, p.exports));
    assert AddAll(EMPTY, []) == EMPTY;
  }

  // ----- which findings survive

  /** Some earlier finding is written with the same text. */
  ghost predicate Shadowed(vs: seq<Violation>, i: nat)
    requires i < |vs|
  {
    vs[i].MissingFile? && exists j :: 0 <= j < i && vs[j].MissingFile? && Identity(vs[j]) == Identity(vs[i])
  }

  ghost predicate Kept(vs: seq<Violation>, v: Violation) {
    exists i :: 0 <= i < |vs| && vs[i] == v && !Shadowed(vs, i)
  }

  lemma KeptSnoc(init: seq<Violation>, last: Violation, v: Violation)
    ensures Kept(init + [last], v) <==> Kept(init, v) || (v == last && !Shadowed(init + [last], |init|))
  {
    var vs := init + [last];
    forall i | 0 <= i < |init| ensures Shadowed(vs, i) <==> Shadowed(init, i) {
      if Shadowed(vs, i) {
        var j :| 0 <= j < i && vs[j].MissingFile? && Identity(vs[j]) == Identity(vs[i]);
        assert init[j] == vs[j];
      }
      if Shadowed(init, i) {
        var j :| 0 <= j < i && init[j].MissingFile? && Identity(init[j]) == Identity(init[i]);
        assert init[j] == vs[j];
      }
    }
    if Kept(vs, v) {
      var i :| 0 <= i < |vs| && vs[i] == v && !Shadowed(vs, i);
      if i < |init| {
        assert init[i] == v;
      }
    }
    if Kept(init, v) {
      var i :| 0 <= i < |init| && init[i] == v && !Shadowed(init, i);
      assert vs[i] == v;
    }
    assert vs[|init|] == last;
  }

  ghost predicate Known(vs: seq<Violation>, identity: string) {
    exists j :: 0 <= j < |vs| && vs[j].MissingFile? && Identity(vs[j]) == identity
  }

  lemma KnownSnoc(init: seq<Violation>, last: Violation, identity: string)
    ensures Known(init + [last], identity)
       <==> Known(init, identity) || (last.MissingFile? && Identity(last) == identity)
  {
    var vs := init + [last];
    assert vs[|init|] == last;
    if Known(init, identity) {
      var j :| 0 <= j < |init| && init[j].MissingFile? && Identity(init[j]) == identity;
      assert vs[j] == init[j];
    }
  }

  lemma ShadowedIsKnown(init: seq<Violation>, last: Violation)
    ensures Shadowed(init + [last], |init|) <==> last.MissingFile? && Known(init, Identity(last))
  {
    var vs := init + [last];
    assert vs[|init|] == last;
    assert forall j :: 0 <= j < |init| ==> vs[j] == init[j];
  }

  /** A finding survives exactly when one of its occurrences has no earlier one of the same text. */
  lemma {:induction false} SurvivesIffKept(vs: seq<Violation>, v: Violation)
    ensures v in AddAll(EMPTY, vs).violations <==> Kept(vs, v)
    ensures forall t :: t in AddAll(EMPTY, vs).identities <==> Known(vs, t)
  {
    hide Kept, Known, Shadowed, Identity;
    if vs == [] {
      NothingKept(v);
    } else {
      var init, last := vs[..|vs| - 1], vs[|vs| - 1];
      assert vs == init + [last];
      SurvivesIffKept(init, v);
      KeptSnoc(init, last, v);
      ShadowedIsKnown(init, last);
      forall t ensures t in AddAll(EMPTY, vs).identities <==> Known(vs, t) {
        KnownSnoc(init, last, t);
      }
    }
  }

  lemma NothingKept(v: Violation)
    ensures !Kept([], v) && forall t :: !Known([], t)
  {}

  /** No two of these findings are written alike without being the same. */
  ghost predicate Unambiguous(vs: seq<Violation>) {
    forall v, w :: v in vs && w in vs && v.MissingFile? && w.MissingFile? && Identity(v) == Identity(w) ==> v == w
  }

  lemma {:induction false} FirstOfText(vs: seq<Violation>, i: nat) returns (j: nat)
    requires i < |vs| && vs[i].MissingFile?
    ensures j <= i && vs[j].MissingFile? && Identity(vs[j]) == Identity(vs[i]) && !Shadowed(vs, j)
  {
    if Shadowed(vs, i) {
      var k :| 0 <= k < i && vs[k].MissingFile? && Identity(vs[k]) == Identity(vs[i]);
      j := FirstOfText(vs, k);
    } else {
      j := i;
    }
  }

  /** Every finding of every key is in the final list exactly when no two are written alike. */
  lemma AllSurviveIffUnambiguous(p: Provider)
    ensures (forall v :: v in AllReports(p, p.exports) ==> v in Findings(p)) <==> Unambiguous(AllReports(p, p.exports))
  {
    hide AllReports, AddAll, Identity;
    var vs := AllReports(p, p.exports);
    forall v ensures v in Findings(p) <==> Kept(vs, v) {
      SurvivesIffKept(vs, v);
    }
    if Unambiguous(vs) {
      forall v | v in vs ensures Kept(vs, v) {
        var i :| 0 <= i < |vs| && vs[i] == v;
        if v.MissingFile? {
          var j := FirstOfText(vs, i);
          assert vs[j] == v;
        } else {
          assert !Shadowed(vs, i);
        }
      }
    }
    if forall v :: v in vs ==> Kept(vs, v) {
      KeptUnambiguous(vs);
    }
  }

  lemma KeptUnambiguous(vs: seq<Violation>)
    requires forall v :: v in vs ==> Kept(vs, v)
    ensures Unambiguous(vs)
  {
    hide Identity;
    forall v, w | v in vs && w in vs && v.MissingFile? && w.MissingFile? && Identity(v) == Identity(w) ensures v == w {
      assert Kept(vs, v) && Kept(vs, w);
      var i :| 0 <= i < |vs| && vs[i] == v && !Shadowed(vs, i);
      var j :| 0 <= j < |vs| && vs[j] == w && !Shadowed(vs, j);
    }
  }

  lemma {:induction false} SplitAt(a: string, b: string, c: string, d: string, bar: char)
    requires bar !in a && bar !in c && a + [bar] + b == c + [bar] + d
    ensures a == c && b == d
  {
    var s := a + [bar] + b;
    assert s[0] == (if a == "" then bar else a[0]) && s[0] == (if c == "" then bar else c[0]);
    if a == "" {
      assert b == s[1..] == d;
    } else {
      assert a[1..] + [bar] + b == s[1..] == c[1..] + [bar] + d;
      SplitAt(a[1..], b, c[1..], d, bar);
    }
  }

  lemma IdentityInjective(v: Violation, w: Violation)
    requires v.MissingFile? && w.MissingFile? && Identity(v) == Identity(w)
    requires '|' !in v.exportsKey && '|' !in w.exportsKey && '|' !in v.importer && '|' !in w.importer
    ensures v == w
  {
    assert Identity(v) == v.exportsKey + ['|'] + (v.importer + "|" + v.missing);
    assert Identity(w) == w.exportsKey + ['|'] + (w.importer + "|" + w.missing);
    SplitAt(v.exportsKey, v.importer + "|" + v.missing, w.exportsKey, w.importer + "|" + w.missing, '|');
    SplitAt(v.importer, v.missing, w.importer, w.missing, '|');
  }

  lemma {:induction false} ReportOrigin(p: Provider, entries: seq<Entry>, v: Violation)
    requires v in AllReports(p, entries) && v.MissingFile?
    ensures v.importer in p.packed && exists e :: e in entries && e.key == v.exportsKey
  {
    hide Visited, WalkReports;
    var init, last := entries[..|entries| - 1], entries[|entries| - 1];
    assert entries == init + [last];
    if v in AllReports(p, init) {
      ReportOrigin(p, init, v);
    } else {
      FileOrigin(p, last.key, Visited(p, last), v);
    }
  }

  lemma {:induction false} FileOrigin(p: Provider, key: string, files: seq<string>, v: Violation)
    requires v in WalkReports(p, key, files) && v.MissingFile?
    ensures v.importer in files && v.exportsKey == key
  {
    var init, last := files[..|files| - 1], files[|files| - 1];
    if v in WalkReports(p, key, init) {
      FileOrigin(p, key, init, v);
    } else {
      SpecifierOrigin(p, key, last, p.scan(last), v);
    }
  }

  lemma {:induction false} SpecifierOrigin(p: Provider, key: string, file: string, specifiers: seq<Specifier>,
                                           v: Violation)
    requires v in ReportsOf(p, key, file, specifiers) && v.MissingFile?
    ensures v.importer == file && v.exportsKey == key
  {
    hide Resolve, Points;
    var init := specifiers[..|specifiers| - 1];
    if v in ReportsOf(p, key, file, init) {
      SpecifierOrigin(p, key, file, init, v);
    }
  }

  /** No exports key and no packed path holds a '|': then no finding of any key is lost. */
  lemma NoBarsNoLoss(p: Provider)
    requires (forall e :: e in p.exports ==> '|' !in e.key) && forall f :: f in p.packed ==> '|' !in f
    ensures forall v :: v in AllReports(p, p.exports) ==> v in Findings(p)
  {
    hide AllReports, Identity;
    var vs := AllReports(p, p.exports);
    forall v, w | v in vs && w in vs && v.MissingFile? && w.MissingFile? && Identity(v) == Identity(w) ensures v == w {
      ReportOrigin(p, p.exports, v);
      ReportOrigin(p, p.exports, w);
      IdentityInjective(v, w);
    }
    AllSurviveIffUnambiguous(p);
  }

  /** The final list never names the same missing file, importer and key twice. */
  lemma {:induction false} NoFindingTwice(vs: seq<Violation>, i: nat, j: nat)
    requires i < j < |AddAll(EMPTY, vs).violations| && AddAll(EMPTY, vs).violations[i].MissingFile?
    ensures AddAll(EMPTY, vs).violations[i] != AddAll(EMPTY, vs).violations[j]
  {
    hide Identity;
    var init, last := AddAll(EMPTY, vs[..|vs| - 1]), vs[|vs| - 1];
    var out := AddAll(EMPTY, vs).violations;
    if j < |init.violations| {
      assert out[i] == init.violations[i] && out[j] == init.violations[j];
      NoFindingTwice(vs[..|vs| - 1], i, j);
    } else {
      assert out == init.violations + [last] && out[j] == last;
      assert out[i] in init.violations;
      SurvivesIffKept(vs[..|vs| - 1], out[i]);
      KeptIsKnown(vs[..|vs| - 1], out[i]);
    }
  }

  lemma KeptIsKnown(vs: seq<Violation>, v: Violation)
    requires Kept(vs, v) && v.MissingFile?
    ensures Known(vs, Identity(v))
  {
    hide Identity;
  }

  // ----- a lost finding

  function Join(importer: string, specifier: string): string {
    if specifier == "./gone" then "gone" else ""
  }

  /** Two keys, each exporting a script that imports a file that is not packed. */
  function Barred(): Provider {
    Provider("packages/core", ["b|c.ts", "c.ts"], [Entry("./a", ["./b|c.ts"]), Entry("./a|b", ["./c.ts"])], [],
             Join, path => "", path => [Import("./gone", 1)])
  }

  lemma OneSpecifier(p: Provider, key: string, file: string, s: Specifier)
    ensures ReportsOf(p, key, file, [s]) == SpecifierReports(p, key, file, s)
    ensures EdgesOf(p, file, [s]) == PackedOf(p, Points(p, file, s))
  {
    hide SpecifierReports, PackedOf, Points;
    assert [s][..0] == [];
    assert ReportsOf(p, key, file, []) == [] && EdgesOf(p, file, []) == [];
  }

  lemma OneImport(key: string, file: string)
    ensures FileReports(Barred(), key, file) == if IsScript(file) then [MissingFile(key, file, "gone")] else []
    ensures Edges(Barred(), file) == []
  {
    hide SpecifierReports, ReportsOf, EdgesOf, PackedOf, Points, Resolve, IsScript;
    var p := Barred();
    NothingPacked(p, file);
    ImportCases(p, key, file, "./gone", 1);
    OneSpecifier(p, key, file, Import("./gone", 1));
  }

  lemma NothingPacked(p: Provider, file: string)
    requires p == Barred()
    ensures Resolve(p, file, "./gone") == Missing("gone")
  {
    hide Resolve, MayName, FirstProbe, Candidates;
    assert "./gone" == "./" + "gone";
    RelativeResolves(p, file, "./gone", "gone");
    forall path | path in p.packed ensures !MayName("gone", "", path) {
      if MayName("gone", "", path) {
        NamedStarts("gone", path);
      }
    }
  }

  lemma OneSeed(p: Provider, key: string, target: string, file: string)
    requires PackedPath(target) == file && file in p.packed && IsScript(file)
    ensures Seeds(p, Entry(key, [target])) == [file]
  {
    hide IsScript, PackedPath;
    assert PackedPaths([target]) == [file];
    PushAllOne([], file);
    assert ScriptsOf(p, [file]) == [file] by {
      assert [file][..0] == [] && ScriptsOf(p, []) == [];
    }
  }

  lemma OneFile(key: string, target: string, file: string)
    requires (target == "./b|c.ts" && file == "b|c.ts") || (target == "./c.ts" && file == "c.ts")
    ensures WalkReports(Barred(), key, Visited(Barred(), Entry(key, [target]))) == [MissingFile(key, file, "gone")]
  {
    hide Edges, FileReports, Seeds;
    var p := Barred();
    assert EndsWith(file, ".ts") && CLOSURE_EXTENSIONS[0] == ".ts";
    OneSeed(p, key, target, file);
    OneImport(key, file);
    PushNothing(file);
    assert Visited(p, Entry(key, [target])) == [file];
    assert [file][..0] == [] && WalkReports(p, key, []) == [];
  }

  lemma PushNothing(file: string)
    ensures PushAll([file], []) == [file]
  {}

  /** A key can lose its only finding: `./a|b` imports a missing file through `c.ts`, which reads like
      the finding of `./a` through `b|c.ts`. */
  lemma LostFinding()
    ensures var p := Barred(); var e := p.exports[1];
            && !Complete(p, e)
            && forall v :: v in Findings(p) ==> !v.MissingFile? || v.exportsKey != e.key
  {
    hide WalkReports, Visited, Complete, AllReports, AddAll;
    var p := Barred();
    var v, w := MissingFile("./a", "b|c.ts", "gone"), MissingFile("./a|b", "c.ts", "gone");
    OneFile("./a", "./b|c.ts", "b|c.ts");
    OneFile("./a|b", "./c.ts", "c.ts");
    TwoKeys(p, p.exports[0], p.exports[1], v, w);
    assert Identity(v) == Identity(w);
    LostOne(v, w);
    KeyQuietIffComplete(p, p.exports[1]);
  }

  lemma TwoKeys(p: Provider, first: Entry, second: Entry, v: Violation, w: Violation)
    requires p.exports == [first, second]
    requires WalkReports(p, first.key, Visited(p, first)) == [v]
               && WalkReports(p, second.key, Visited(p, second)) == [w]
    ensures AllReports(p, p.exports) == [v, w]
  {
    hide WalkReports, Visited;
    assert [first, second][..1] == [first] && [first][..0] == [];
    assert AllReports(p, [first]) == [v];
  }

  lemma LostOne(v: Violation, w: Violation)
    requires v.MissingFile? && w.MissingFile? && Identity(v) == Identity(w)
    ensures AddAll(EMPTY, [v, w]).violations == [v]
  {
    hide Identity;
    assert [v, w][..1] == [v] && [v][..0] == [];
    assert AddAll(EMPTY, [v]) == Log([v], {Identity(v)});
  }
}
