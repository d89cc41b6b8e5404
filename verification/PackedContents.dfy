/** The ruling on a packed listing: `isAllowedPackedPath` and `evaluatePackedPaths` of
    publish-contents-check.ts. */
module PackedContents {
  import opened PackedPattern

  datatype Ruling = Ruling(requiredPackedPaths: seq<string>, allowedSurfaces: seq<string>,
                           deniedPackedPatterns: seq<string>)

  datatype Violation =
    | EmptyListing
    | Missing(path: string)
    | MissingSurface(entry: string)
    | Extra(path: string)
    | MissingTarget(path: string)

  /** npm's file-or-directory reading of a `files` entry. */
  predicate IsUnder(path: string, surface: string) {
    path == surface || surface + "/" <= path
  }

  predicate IsAllowed(path: string, ruling: Ruling) {
    if path in ruling.requiredPackedPaths then true
    else if exists p :: p in ruling.deniedPackedPatterns && MatchesPackedPattern(path, p) then false
    else exists s :: s in ruling.allowedSurfaces && IsUnder(path, s)
  }

  predicate IsRepresented(surface: string, paths: seq<string>) {
    exists p :: p in paths && IsUnder(p, surface)
  }

  // What each of the four loops pushes, over a prefix of what it runs through.

  function MissingOf(required: seq<string>, paths: seq<string>): (r: seq<Violation>)
    ensures forall v :: v in r <==> v.Missing? && v.path in required && v.path !in paths
  {
    if required == [] then []
    else
      var last := required[|required| - 1];
      MissingOf(required[..|required| - 1], paths) + if last in paths then [] else [Missing(last)]
  }

  function SurfacesOf(surfaces: seq<string>, ruling: Ruling, paths: seq<string>): (r: seq<Violation>)
    ensures forall v :: v in r <==>
              v.MissingSurface? && v.entry in surfaces && v.entry !in ruling.requiredPackedPaths
                  && !IsRepresented(v.entry, paths)
  {
    if surfaces == [] then []
    else
      var last := surfaces[|surfaces| - 1];
      SurfacesOf(surfaces[..|surfaces| - 1], ruling, paths)
      + if last in ruling.requiredPackedPaths || IsRepresented(last, paths) then [] else [MissingSurface(last)]
  }

  function ExtrasOf(paths: seq<string>, ruling: Ruling): (r: seq<Violation>)
    ensures forall v :: v in r <==> v.Extra? && v.path in paths && !IsAllowed(v.path, ruling)
  {
    if paths == [] then []
    else
      var last := paths[|paths| - 1];
      ExtrasOf(paths[..|paths| - 1], ruling) + if IsAllowed(last, ruling) then [] else [Extra(last)]
  }

  function TargetsOf(targets: seq<string>, paths: seq<string>): (r: seq<Violation>)
    ensures forall v :: v in r <==> v.MissingTarget? && v.path in targets && v.path !in paths
  {
    if targets == [] then []
    else
      var last := targets[|targets| - 1];
      TargetsOf(targets[..|targets| - 1], paths) + if last in paths then [] else [MissingTarget(last)]
  }

  function Evaluation(paths: seq<string>, ruling: Ruling, targets: seq<string>): seq<Violation> {
    if paths == [] then [EmptyListing]
    else
      MissingOf(ruling.requiredPackedPaths, paths) + SurfacesOf(ruling.allowedSurfaces, ruling, paths)
      + ExtrasOf(paths, ruling) + TargetsOf(targets, paths)
  }

  method EvaluatePackedPaths(paths: seq<string>, ruling: Ruling, targets: seq<string>)
    returns (violations: seq<Violation>)
    ensures violations == Evaluation(paths, ruling, targets)
    ensures violations == [] <==> IsExactly(paths, ruling, targets)
  {
    hide IsExactly, MissingOf, SurfacesOf, ExtrasOf, TargetsOf;
    EmptyIffExact(paths, ruling, targets);
    if paths == [] {
      return [EmptyListing];
    }
    violations := PushMissing([], ruling.requiredPackedPaths, paths);
    violations := PushSurfaces(violations, ruling, paths);
    violations := PushExtras(violations, paths, ruling);
    violations := PushTargets(violations, targets, paths);
  }

  // The loops, one after another, each pushing onto what the ones before it found.

  method PushMissing(found: seq<Violation>, required: seq<string>, paths: seq<string>)
    returns (violations: seq<Violation>)
    ensures violations == found + MissingOf(required, paths)
  {
    violations := found;
    for i := 0 to |required|
      invariant violations == found + MissingOf(required[..i], paths)
    {
      assert required[..i + 1][..i] == required[..i];
      if required[i] !in paths {
        violations := violations + [Missing(required[i])];
      }
    }
    assert required[..|required|] == required;
  }

  lemma PushOne(found: seq<Violation>, more: seq<Violation>, v: Violation)
    ensures found + more + [v] == found + (more + [v])
  {}

  lemma SurfacesStep(surfaces: seq<string>, i: nat, ruling: Ruling, paths: seq<string>)
    requires i < |surfaces|
    ensures SurfacesOf(surfaces[..i + 1], ruling, paths)
         == SurfacesOf(surfaces[..i], ruling, paths)
            + if surfaces[i] in ruling.requiredPackedPaths || IsRepresented(surfaces[i], paths) then []
                else [MissingSurface(surfaces[i])]
  {
    hide IsRepresented;
    var front := surfaces[..i + 1];
    assert front[..|front| - 1] == surfaces[..i];
  }

  method PushSurfaces(found: seq<Violation>, ruling: Ruling, paths: seq<string>) returns (violations: seq<Violation>)
    ensures violations == found + SurfacesOf(ruling.allowedSurfaces, ruling, paths)
  {
    var surfaces := ruling.allowedSurfaces;
    violations := found;
    assert SurfacesOf(surfaces[..0], ruling, paths) == [];
    hide IsRepresented, SurfacesOf;
    for i := 0 to |surfaces|
      invariant violations == found + SurfacesOf(surfaces[..i], ruling, paths)
    {
      SurfacesStep(surfaces, i, ruling, paths);
      if surfaces[i] !in ruling.requiredPackedPaths && !IsRepresented(surfaces[i], paths) {
        PushOne(found, SurfacesOf(surfaces[..i], ruling, paths), MissingSurface(surfaces[i]));
        violations := violations + [MissingSurface(surfaces[i])];
      }
    }
    assert surfaces[..|surfaces|] == surfaces;
  }

  method PushExtras(found: seq<Violation>, paths: seq<string>, ruling: Ruling) returns (violations: seq<Violation>)
    ensures violations == found + ExtrasOf(paths, ruling)
  {
    hide IsAllowed;
    violations := found;
    for i := 0 to |paths|
      invariant violations == found + ExtrasOf(paths[..i], ruling)
    {
      assert paths[..i + 1][..i] == paths[..i];
      if !IsAllowed(paths[i], ruling) {
        PushOne(found, ExtrasOf(paths[..i], ruling), Extra(paths[i]));
        violations := violations + [Extra(paths[i])];
      }
    }
    assert paths[..|paths|] == paths;
  }

  method PushTargets(found: seq<Violation>, targets: seq<string>, paths: seq<string>)
    returns (violations: seq<Violation>)
    ensures violations == found + TargetsOf(targets, paths)
  {
    violations := found;
    for i := 0 to |targets|
      invariant violations == found + TargetsOf(targets[..i], paths)
    {
      assert targets[..i + 1][..i] == targets[..i];
      if targets[i] !in paths {
        violations := violations + [MissingTarget(targets[i])];
      }
    }
    assert targets[..|targets|] == targets;
  }

  // ----- what an empty evaluation means

  /** A path is the entry itself, or continues it after a slash. */
  ghost predicate LiesUnder(path: string, entry: string) {
    path == entry || (|path| > |entry| && path[..|entry|] == entry && path[|entry|] == '/')
  }

  lemma UnderMeans(path: string, entry: string)
    ensures IsUnder(path, entry) <==> LiesUnder(path, entry)
  {
    var dir := entry + "/";
    assert |path| >= |dir| ==> path[..|dir|] == path[..|entry|] + [path[|entry|]];
  }

  /** A path may be packed when it is mandated, or lies under a surface and is spelled by no denied
      pattern. */
  ghost predicate MayBePacked(path: string, ruling: Ruling) {
    || path in ruling.requiredPackedPaths
    || ((exists s :: s in ruling.allowedSurfaces && LiesUnder(path, s))
        && forall p :: p in ruling.deniedPackedPatterns ==> !Spelled(path, p))
  }

  lemma AllowedMeans(path: string, ruling: Ruling)
    ensures IsAllowed(path, ruling) <==> MayBePacked(path, ruling)
  {
    hide MatchesPackedPattern, Spelled, IsUnder, LiesUnder;
    forall s ensures IsUnder(path, s) <==> LiesUnder(path, s) {
      UnderMeans(path, s);
    }
    forall p ensures MatchesPackedPattern(path, p) <==> Spelled(path, p) {
      MatchesIffSpelled(path, p);
    }
  }

  /** The listing is not empty, has every mandated file, something under every surface and every
      target, and nothing that may not be packed. */
  ghost predicate IsExactly(paths: seq<string>, ruling: Ruling, targets: seq<string>) {
    && paths != []
    && (forall p :: p in ruling.requiredPackedPaths ==> p in paths)
    && (forall s :: s in ruling.allowedSurfaces ==> exists p :: p in paths && LiesUnder(p, s))
    && (forall p :: p in paths ==> MayBePacked(p, ruling))
    && (forall t :: t in targets ==> t in paths)
  }

  lemma RepresentedMeans(surface: string, paths: seq<string>)
    ensures IsRepresented(surface, paths) <==> exists p :: p in paths && LiesUnder(p, surface)
  {
    hide IsUnder, LiesUnder;
    forall p ensures IsUnder(p, surface) <==> LiesUnder(p, surface) {
      UnderMeans(p, surface);
    }
  }

  lemma RequiredRepresents(surface: string, paths: seq<string>)
    requires surface in paths
    ensures IsRepresented(surface, paths)
  {}

  /** No violation exactly when the listing is what the ruling asks for. */
  lemma EmptyIffExact(paths: seq<string>, ruling: Ruling, targets: seq<string>)
    ensures Evaluation(paths, ruling, targets) == [] <==> IsExactly(paths, ruling, targets)
  {
    hide IsAllowed, IsRepresented, LiesUnder, MayBePacked;
    var a, b := MissingOf(ruling.requiredPackedPaths, paths), SurfacesOf(ruling.allowedSurfaces, ruling, paths);
    var c, d := ExtrasOf(paths, ruling), TargetsOf(targets, paths);
    forall s ensures IsRepresented(s, paths) <==> exists p :: p in paths && LiesUnder(p, s) {
      RepresentedMeans(s, paths);
    }
    forall p ensures IsAllowed(p, ruling) <==> MayBePacked(p, ruling) {
      AllowedMeans(p, ruling);
    }
    forall s | s in paths ensures IsRepresented(s, paths) {
      RequiredRepresents(s, paths);
    }
    if Evaluation(paths, ruling, targets) == [] {
      NoneExact(paths, ruling, targets);
    }
    if IsExactly(paths, ruling, targets) {
      assert forall v :: v !in a && v !in b && v !in c && v !in d;
      assert a == [] && b == [] && c == [] && d == [] by {
        NoneIn(a);
        NoneIn(b);
        NoneIn(c);
        NoneIn(d);
      }
    }
  }

  lemma NoneIn(vs: seq<Violation>)
    ensures vs != [] ==> exists v :: v in vs
  {
    if vs != [] {
      assert vs[0] in vs;
    }
  }

  lemma NoneExact(paths: seq<string>, ruling: Ruling, targets: seq<string>)
    requires Evaluation(paths, ruling, targets) == []
    requires forall p :: IsAllowed(p, ruling) <==> MayBePacked(p, ruling)
    requires forall s :: s in paths ==> IsRepresented(s, paths)
    ensures IsExactly(paths, ruling, targets)
  {
    hide IsAllowed, IsRepresented, LiesUnder, MayBePacked;
    var a, b := MissingOf(ruling.requiredPackedPaths, paths), SurfacesOf(ruling.allowedSurfaces, ruling, paths);
    var c, d := ExtrasOf(paths, ruling), TargetsOf(targets, paths);
    assert a == [] && b == [] && c == [] && d == [];
    forall p | p in ruling.requiredPackedPaths ensures p in paths {
      assert Missing(p) !in a;
    }
    forall s | s in ruling.allowedSurfaces ensures exists p :: p in paths && LiesUnder(p, s) {
      assert MissingSurface(s) !in b;
      RepresentedMeans(s, paths);
    }
    forall p | p in paths ensures MayBePacked(p, ruling) {
      assert Extra(p) !in c;
    }
    forall t | t in targets ensures t in paths {
      assert MissingTarget(t) !in d;
    }
  }
}
