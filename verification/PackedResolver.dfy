/** Which packed file an import specifier names: the pure half of publish-imports-check.ts. */
module PackedResolver {
  import opened Wrappers

  const PROVIDER_PACKAGE := "@defrex/autobuild"

  const CLOSURE_EXTENSIONS: seq<string> := [".ts", ".tsx", ".mts", ".cts", ".js", ".mjs", ".cjs", ".jsx"]

  const KNOWN_NON_SCRIPT_EXTENSIONS: seq<string> := [".json", ".node", ".wasm", ".md", ".map", ".txt", ".html", ".css"]

  /** What the parser collects from a file: its import specifiers, or that it does not parse. */
  datatype Specifier = Unparseable | Import(specifier: string, line: nat)

  /** One entry of the `exports` or `imports` map; no two entries of a map share a key. */
  datatype Entry = Entry(key: string, targets: seq<string>)

  /** The packed provider. `join` is `normalize(join(dirname(importer), specifier))` and `extname` the
      extension of a path, both of Node's posix path module; `scan` reads and parses a packed file. */
  datatype Provider = Provider(
    directory: string,
    packed: seq<string>,
    exports: seq<Entry>,
    imports: seq<Entry>,
    join: (string, string) -> string,
    extname: string -> string,
    scan: string -> seq<Specifier>)

  datatype Resolution =
    | Self(targets: seq<string>)
    | SelfMissing(subpath: string)
    | Imports(targets: seq<string>)
    | Relative(path: string)
    | Missing(path: string)
    | External

  predicate EndsWith(s: string, suffix: string) {
    |s| >= |suffix| && forall i :: 0 <= i < |suffix| ==> s[|s| - |suffix| + i] == suffix[i]
  }

  /** `packedScriptKind(path) !== undefined` */
  predicate IsScript(path: string) {
    exists e :: e in CLOSURE_EXTENSIONS && EndsWith(path, e)
  }

  predicate IsProviderSpecifier(specifier: string) {
    specifier == PROVIDER_PACKAGE || PROVIDER_PACKAGE + "/" <= specifier
  }

  function SubpathOf(specifier: string): string
    requires IsProviderSpecifier(specifier)
  {
    if specifier == PROVIDER_PACKAGE then "." else "./" + specifier[|PROVIDER_PACKAGE| + 1..]
  }

  /** `packedPathOfTarget` */
  function PackedPath(target: string): string {
    if "./" <= target then target[2..] else target
  }

  function Lookup(entries: seq<Entry>, key: string): (r: Option<seq<string>>)
    ensures r.None? <==> forall e :: e in entries ==> e.key != key
    ensures r.Some? ==> Entry(key, r.value) in entries
  {
    if entries == [] then None
    else if entries[0].key == key then Some(entries[0].targets)
    else Lookup(entries[1..], key)
  }

  function Stem(joined: string, extension: string): string {
    if extension in CLOSURE_EXTENSIONS && |extension| <= |joined| then joined[..|joined| - |extension|] else joined
  }

  function Appended(base: string, extensions: seq<string>): (r: seq<string>)
    ensures |r| == |extensions| && forall i :: 0 <= i < |r| ==> r[i] == base + extensions[i]
  {
    seq(|extensions|, i requires 0 <= i < |extensions| => base + extensions[i])
  }

  /** What is probed, in order, once the joined path itself is not packed. */
  function Candidates(joined: string, extension: string): seq<string> {
    if extension in KNOWN_NON_SCRIPT_EXTENSIONS then []
    else
      var stem := Stem(joined, extension);
      Appended(stem, CLOSURE_EXTENSIONS) + Appended(joined + "/index", CLOSURE_EXTENSIONS)
      + if extension in CLOSURE_EXTENSIONS then [] else [stem + ".json", joined + "/index.json"]
  }

  /** `candidates.find(...)` */
  function FirstPacked(candidates: seq<string>, packed: seq<string>): (r: Option<string>)
    ensures r.Some? ==> exists i ::
              0 <= i < |candidates| && candidates[i] == r.value && r.value in packed
              && forall j :: 0 <= j < i ==> candidates[j] !in packed
    ensures r.None? ==> forall c :: c in candidates ==> c !in packed
  {
    if candidates == [] then None
    else if candidates[0] in packed then
      assert candidates[0] in packed;
      Some(candidates[0])
    else
      var rest := FirstPacked(candidates[1..], packed);
      assert rest.Some? ==> forall j :: 0 < j < |candidates| ==> candidates[j] == candidates[1..][j - 1];
      rest
  }

  predicate IsRelative(specifier: string) {
    "./" <= specifier || "../" <= specifier
  }

  /** `resolvePackedClosureTarget` */
  function Resolve(p: Provider, importer: string, specifier: string): Resolution {
    if IsProviderSpecifier(specifier) then
      var subpath := SubpathOf(specifier);
      match Lookup(p.exports, subpath)
      case None => SelfMissing(subpath)
      case Some(targets) => Self(targets)
    else if "#" <= specifier then
      match Lookup(p.imports, specifier)
      case None => External
      case Some(targets) => Imports(targets)
    else if !IsRelative(specifier) then External
    else
      var joined := p.join(importer, specifier);
      if joined in p.packed then Relative(joined)
      else
        match FirstPacked(Candidates(joined, p.extname(joined)), p.packed)
        case Some(hit) => Relative(hit)
        case None => Missing(joined)
  }

  // ----- kinds and targets

  /** A script's extension: TypeScript's or JavaScript's, plain, as a module of either system, or with
      JSX. */
  ghost predicate IsScriptKind(e: string) {
    exists language :: language in {"ts", "js"}
                       && e in {"." + language, ".m" + language, ".c" + language, "." + language + "x"}
  }

  lemma ScriptKindsListed(e: string)
    ensures e in CLOSURE_EXTENSIONS <==> IsScriptKind(e)
  {
    var ts, js := "ts", "js";
    assert "." + ts == ".ts" && ".m" + ts == ".mts" && ".c" + ts == ".cts" && "." + ts + "x" == ".tsx";
    assert "." + js == ".js" && ".m" + js == ".mjs" && ".c" + js == ".cjs" && "." + js + "x" == ".jsx";
  }

  /** A packed file is a script when its path ends in a script's extension. */
  lemma ScriptMeans(path: string)
    ensures IsScript(path) <==> exists stem, e :: path == stem + e && IsScriptKind(e)
  {
    if e :| e in CLOSURE_EXTENSIONS && EndsWith(path, e) {
      ScriptKindsListed(e);
      assert path == path[..|path| - |e|] + e;
    }
    if stem, e :| path == stem + e && IsScriptKind(e) {
      ScriptKindsListed(e);
      assert EndsWith(path, e);
    }
  }

  /** A target's packed path is the target without one `./` in front. */
  lemma PackedPathMeans(target: string, rest: string)
    ensures target == "./" + rest ==> PackedPath(target) == rest
    ensures (forall r :: target != "./" + r) ==> PackedPath(target) == target
  {
    if "./" <= target {
      assert target == "./" + target[2..];
    }
  }

  // ----- what a specifier stands for

  /** The joined path without its extension where that is a script's, and the joined path itself
      otherwise. */
  ghost predicate IsStem(joined: string, extension: string, base: string) {
    if IsScriptKind(extension) && |extension| <= |joined|
    then base <= joined && |base| + |extension| == |joined| else base == joined
  }

  /** The paths a relative specifier may stand for, said without an order: the path itself; unless it
      names a known non-script kind, its stem or its index with a script extension; and unless it
      names a script kind too, the same two with `.json`. */
  ghost predicate MayName(joined: string, extension: string, path: string) {
    || path == joined
    || (extension !in KNOWN_NON_SCRIPT_EXTENSIONS
        && exists base, e ::
             && (IsStem(joined, extension, base) || base == joined + "/index")
             && (IsScriptKind(e) || (e == ".json" && !IsScriptKind(extension)))
             && path == base + e)
  }

  /** Without an extension, every path begins as the joined one does. */
  lemma NamedStarts(joined: string, path: string)
    requires joined != "" && MayName(joined, "", path)
    ensures path != "" && path[0] == joined[0]
  {
    hide IsScriptKind;
    if path != joined {
      var base, e :| (IsStem(joined, "", base) || base == joined + "/index") && path == base + e;
      assert base != "" && base[0] == joined[0];
    }
  }

  lemma StemMeans(joined: string, extension: string, base: string)
    ensures IsStem(joined, extension, base) <==> base == Stem(joined, extension)
  {
    ScriptKindsListed(extension);
    hide IsScriptKind;
  }

  lemma AppendedMeans(base: string, extensions: seq<string>, path: string)
    ensures path in Appended(base, extensions) <==> exists e :: e in extensions && path == base + e
  {
    var r := Appended(base, extensions);
    if path in r {
      var i :| 0 <= i < |r| && r[i] == path;
      assert extensions[i] in extensions;
    }
    if e :| e in extensions && path == base + e {
      var i :| 0 <= i < |extensions| && extensions[i] == e;
      assert r[i] == path;
    }
  }

  lemma ProbesMean(stem: string, index: string, extensions: seq<string>, json: bool, probes: seq<string>, path: string)
    requires probes == Appended(stem, extensions) + Appended(index, extensions)
               + if json then [stem + ".json", index + ".json"] else []
    ensures path in probes <==> exists base, e ::
              (base == stem || base == index) && (e in extensions || (e == ".json" && json)) && path == base + e
  {
    hide Appended;
    AppendedMeans(stem, extensions, path);
    AppendedMeans(index, extensions, path);
  }

  lemma CandidatesAreNamed(joined: string, extension: string, path: string)
    ensures MayName(joined, extension, path) <==> path == joined || path in Candidates(joined, extension)
  {
    hide Appended, Stem, IsStem, IsScriptKind;
    var stem, index := Stem(joined, extension), joined + "/index";
    assert index + ".json" == joined + "/index.json";
    forall base ensures IsStem(joined, extension, base) <==> base == stem {
      StemMeans(joined, extension, base);
    }
    forall e ensures e in CLOSURE_EXTENSIONS <==> IsScriptKind(e) {
      ScriptKindsListed(e);
    }
    if extension !in KNOWN_NON_SCRIPT_EXTENSIONS {
      ProbesMean(stem, index, CLOSURE_EXTENSIONS, extension !in CLOSURE_EXTENSIONS, Candidates(joined, extension),
                 path);
    }
  }

  /** Probe `path` is `base` with a script's extension, TypeScript's exactly in the first half of each
      eight. */
  ghost predicate IsProbe(base: string, i: nat, path: string) {
    exists e :: IsScriptKind(e) && path == base + e && ('t' in e <==> i % 8 < 4)
  }

  lemma ProbedAt(base: string, i: nat)
    ensures IsProbe(base, i, base + CLOSURE_EXTENSIONS[i % 8])
  {
    ScriptKindsListed(CLOSURE_EXTENSIONS[i % 8]);
    hide IsScriptKind;
  }

  lemma ThreeParts(a: seq<string>, b: seq<string>, c: seq<string>, i: nat)
    ensures |a + b + c| == |a| + |b| + |c| && (a + b + c)[|a| + |b|..] == c
    ensures i < |a| ==> (a + b + c)[i] == a[i]
    ensures |a| <= i < |a| + |b| ==> (a + b + c)[i] == b[i - |a|]
  {}

  lemma ProbesInParts(joined: string, extension: string, extensions: seq<string>)
    requires extension !in KNOWN_NON_SCRIPT_EXTENSIONS && extensions == CLOSURE_EXTENSIONS
    ensures Candidates(joined, extension)
         == Appended(Stem(joined, extension), extensions) + Appended(joined + "/index", extensions)
            + if extension in extensions then [] else [Stem(joined, extension) + ".json", joined + "/index.json"]
  {
    hide Stem, Appended;
  }

  lemma ProbeAt(joined: string, extension: string, extensions: seq<string>, i: nat)
    requires extension !in KNOWN_NON_SCRIPT_EXTENSIONS && extensions == CLOSURE_EXTENSIONS && |extensions| == 8
    ensures var probes, stem := Candidates(joined, extension), Stem(joined, extension);
            && |probes| == (if extension in extensions then 16 else 18)
            && (i < 8 ==> probes[i] == stem + extensions[i % 8])
            && (8 <= i < 16 ==> probes[i] == joined + "/index" + extensions[i % 8])
            && (extension !in extensions ==> probes[16..] == [stem + ".json", joined + "/index.json"])
  {
    hide *;
    var stem := Stem(joined, extension);
    ProbesInParts(joined, extension, extensions);
    ThreeParts(Appended(stem, extensions), Appended(joined + "/index", extensions),
               if extension in extensions then [] else [stem + ".json", joined + "/index.json"], i);
  }

  /** The order of the probes: the stem with each script extension, TypeScript's first, then the index
      in the same way, then `.json`. */
  lemma ProbesOrdered(joined: string, extension: string, stem: string, i: nat)
    requires extension !in KNOWN_NON_SCRIPT_EXTENSIONS && IsStem(joined, extension, stem)
    ensures var probes := Candidates(joined, extension);
            && |probes| == (if IsScriptKind(extension) then 16 else 18)
            && (i < 8 ==> IsProbe(stem, i, probes[i]))
            && (8 <= i < 16 ==> IsProbe(joined + "/index", i, probes[i]))
            && (!IsScriptKind(extension) ==> probes[16..] == [stem + ".json", joined + "/index.json"])
  {
    StemMeans(joined, extension, stem);
    ScriptKindsListed(extension);
    ProbeAt(joined, extension, CLOSURE_EXTENSIONS, i);
    ProbedAt(stem, i);
    ProbedAt(joined + "/index", i);
    hide Stem, IsStem, IsScriptKind, IsProbe, Candidates;
  }

  /** An import of the provider itself asks its exports for `.` or for what follows the package's name,
      and an import starting with `#` asks its imports for the whole of it; what is asked for is the
      entry of that key, if there is one. */
  lemma NamedResolves(p: Provider, importer: string, specifier: string, rest: string)
    ensures specifier == "@defrex/autobuild" ==>
              match Resolve(p, importer, specifier)
              case Self(targets) => Entry(".", targets) in p.exports
              case SelfMissing(subpath) => subpath == "." && forall e :: e in p.exports ==> e.key != "."
              case _ => false
    ensures specifier == "@defrex/autobuild/" + rest ==>
              match Resolve(p, importer, specifier)
              case Self(targets) => Entry("./" + rest, targets) in p.exports
              case SelfMissing(subpath) => subpath == "./" + rest && forall e :: e in p.exports ==> e.key != "./" + rest
              case _ => false
    ensures specifier == "#" + rest ==>
              match Resolve(p, importer, specifier)
              case Imports(targets) => Entry(specifier, targets) in p.imports
              case External => forall e :: e in p.imports ==> e.key != specifier
              case _ => false
  {
    if specifier == "@defrex/autobuild/" + rest {
      assert specifier[|PROVIDER_PACKAGE| + 1..] == rest;
      assert PROVIDER_PACKAGE + "/" <= specifier && specifier[|PROVIDER_PACKAGE|] == '/';
    }
    if specifier == "#" + rest {
      assert specifier[0] == '#' && PROVIDER_PACKAGE[0] == '@';
      assert "#" <= specifier;
    }
  }

  lemma StartsWith(s: string, prefix: string)
    ensures prefix <= s <==> exists rest :: s == prefix + rest
  {
    if prefix <= s {
      assert s == prefix + s[|prefix|..];
    }
  }

  /** Any other specifier that is not relative is external. */
  lemma OthersAreExternal(p: Provider, importer: string, specifier: string)
    requires specifier != "@defrex/autobuild" && forall rest :: specifier != "@defrex/autobuild/" + rest
    requires forall rest :: specifier !in {"#" + rest, "./" + rest, "../" + rest}
    ensures Resolve(p, importer, specifier) == External
  {
    StartsWith(specifier, "@defrex/autobuild/");
    StartsWith(specifier, "#");
    StartsWith(specifier, "./");
    StartsWith(specifier, "../");
  }

  ghost predicate FirstProbe(packed: seq<string>, probes: seq<string>, path: string) {
    exists i :: 0 <= i < |probes| && probes[i] == path && forall j :: 0 <= j < i ==> probes[j] !in packed
  }

  /** A relative specifier resolves exactly when something it may name is packed, and then to a packed
      file it may name, the first of the probes that is; otherwise the missing path is the joined one. */
  lemma RelativeResolves(p: Provider, importer: string, specifier: string, rest: string)
    requires specifier in {"./" + rest, "../" + rest}
    ensures var joined := p.join(importer, specifier);
            var extension := p.extname(joined);
            match Resolve(p, importer, specifier)
            case Relative(path) =>
              && path in p.packed && MayName(joined, extension, path)
              && (path != joined ==> joined !in p.packed && FirstProbe(p.packed, Candidates(joined, extension), path))
            case Missing(path) => path == joined && forall q :: MayName(joined, extension, q) ==> q !in p.packed
            case _ => false
  {
    hide MayName, Candidates;
    assert specifier[0] == '.';
    var joined := p.join(importer, specifier);
    var extension := p.extname(joined);
    forall q ensures MayName(joined, extension, q) <==> q == joined || q in Candidates(joined, extension) {
      CandidatesAreNamed(joined, extension, q);
    }
  }
}
