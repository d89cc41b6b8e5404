/** `stageDeployment` and the ledger upkeep of `buildDeployment` (deploy-build.ts): generated assets are
    written into a consumer's folder, and a ledger of digests keeps them apart from the consumer's own
    files. */
module Staging {
  import opened Wrappers
  import opened Bytes

  /** Segments below the folder's root. */
  type Path = seq<string>

  type Content = seq<byte>

  /** A SHA-256 digest in hexadecimal: never the empty string. */
  type Digest = s: string | s != "" witness "0"

  /** The ledger file: missing, not JSON, or a record of what was staged, in the order of its keys. */
  datatype LedgerFile = Absent | Unreadable | Ledger(entries: seq<(Path, string)>)

  datatype Folder = Folder(files: map<Path, Content>, dirs: set<Path>, ledger: LedgerFile)

  datatype Asset = Asset(path: Path, bytes: Content)

  datatype Error = BadLedger | InvalidPath | Refused(path: Path) | NotADirectory(path: Path)

  const LEDGER: Path := [".autobuild-service-assets.json"]

  /** Below the root, and not the ledger itself. */
  predicate IsInside(p: Path) {
    p != [] && !(".." <= p[0]) && p != LEDGER
  }

  /** The record: of two entries for one key the later counts, in the place of the earlier. */
  function Owned(entries: seq<(Path, string)>): map<Path, string> {
    if entries == [] then map[]
    else Owned(entries[..|entries| - 1])[entries[|entries| - 1].0 := entries[|entries| - 1].1]
  }

  function Entries(ledger: LedgerFile): seq<(Path, string)> {
    if ledger.Ledger? then ledger.entries else []
  }

  /** What the ledger says, if it can be read. */
  function Previous(ledger: LedgerFile): Option<map<Path, string>> {
    match ledger
    case Absent => Some(map[])
    case Unreadable => None
    case Ledger(entries) => Some(Owned(entries))
  }

  /** The file at `p` is exactly what was staged there. */
  predicate Owns(digest: Content -> Digest, owned: map<Path, string>, p: Path, bytes: Content) {
    p in owned && owned[p] != "" && digest(bytes) == owned[p]
  }

  /** The collision check of one path. */
  function Collision(digest: Content -> Digest, folder: Folder, owned: map<Path, string>, p: Path): Option<Error> {
    if !IsInside(p) then Some(InvalidPath)
    else if p in folder.dirs || (p in folder.files && !Owns(digest, owned, p, folder.files[p])) then Some(Refused(p))
    else None
  }

  function Paths(source: seq<Asset>): set<Path> { set a | a in source :: a.path }

  /** The map of assets, one entry after another. */
  function AsMap(source: seq<Asset>): map<Path, Content> {
    if source == [] then map[]
    else AsMap(source[..|source| - 1])[source[|source| - 1].path := source[|source| - 1].bytes]
  }

  function Listed(digest: Content -> Digest, source: seq<Asset>): seq<(Path, string)> {
    seq(|source|, i requires 0 <= i < |source| => (source[i].path, digest(source[i].bytes)))
  }

  /** What a ledger of exactly these assets says. */
  function Digests(digest: Content -> Digest, source: seq<Asset>): map<Path, string> {
    Owned(Listed(digest, source))
  }

  /** The directories `mkdir -p` makes on the way to a path. */
  function Above(p: Path): set<Path> { set k | 0 < k < |p| :: p[..k] }

  function DirsOf(source: seq<Asset>): set<Path> {
    if source == [] then {}
    else DirsOf(source[..|source| - 1]) + Above(source[|source| - 1].path)
  }

  /** No asset lies at or below another: they were read from a directory tree. */
  ghost predicate IsSource(source: seq<Asset>) {
    forall i, j :: 0 <= i < |source| && 0 <= j < |source| && i != j ==> !(source[i].path <= source[j].path)
  }

  /** A path below the folder's root that is not the ledger's. */
  ghost predicate IsWithin(p: Path) {
    p != [] && (|p[0]| < 2 || p[0][0] != '.' || p[0][1] != '.') && p != [".autobuild-service-assets.json"]
  }

  /** Staging may write or remove the path: nothing is there, or a file with exactly the digest that the
      ledger has for it. */
  ghost predicate IsFree(digest: Content -> Digest, folder: Folder, owned: map<Path, string>, p: Path) {
    && IsWithin(p) && p !in folder.dirs
    && (p in folder.files ==> p in owned && owned[p] == digest(folder.files[p]))
  }

  lemma CollisionMeans(digest: Content -> Digest, folder: Folder, owned: map<Path, string>, p: Path)
    ensures Collision(digest, folder, owned, p) ==
              if IsFree(digest, folder, owned, p) then None else Some(if IsWithin(p) then Refused(p) else InvalidPath)
  {
    assert p != [] ==> (".." <= p[0] <==> |p[0]| >= 2 && p[0][0] == '.' && p[0][1] == '.');
  }

  /** The error names a path that is not free. */
  ghost predicate IsObjection(digest: Content -> Digest, folder: Folder, owned: map<Path, string>, source: seq<Asset>,
                              e: Error)
  {
    exists p :: p in owned.Keys + Paths(source) && !IsFree(digest, folder, owned, p)
                && e == if IsWithin(p) then Refused(p) else InvalidPath
  }

  /** What the collision check lets through. */
  ghost predicate Passes(digest: Content -> Digest, folder: Folder, owned: map<Path, string>, source: seq<Asset>) {
    forall p :: p in owned.Keys + Paths(source) ==> IsFree(digest, folder, owned, p)
  }

  /** Owned paths the new assets no longer have. */
  function Stale(owned: map<Path, string>, source: seq<Asset>): set<Path> { owned.Keys - Paths(source) }

  /** A file stands where the path needs a directory. */
  ghost predicate IsBlocked(files: map<Path, Content>, p: Path) {
    exists k :: 0 < k < |p| && p[..k] in files
  }

  /** The removal of stale paths, in the ledger's order, comes to one that lies below a file. */
  ghost predicate IsStuck(files: map<Path, Content>, entries: seq<(Path, string)>, source: seq<Asset>, i: nat) {
    i < |entries| && entries[i].0 !in Paths(source)
        && IsBlocked(files - Stale(Owned(entries[..i]), source), entries[i].0)
  }

  ghost predicate IsJammed(files: map<Path, Content>, entries: seq<(Path, string)>, source: seq<Asset>) {
    exists i: nat :: IsStuck(files, entries, source, i)
  }

  ghost predicate IsFirstStuck(files: map<Path, Content>, entries: seq<(Path, string)>, source: seq<Asset>, i: nat) {
    IsStuck(files, entries, source, i) && forall j: nat :: j < i ==> !IsStuck(files, entries, source, j)
  }

  // ----- staging as it runs

  class Deployment {
    const digest: Content -> Digest
    var files: map<Path, Content>
    var dirs: set<Path>
    var ledger: LedgerFile

    constructor (digest: Content -> Digest, folder: Folder)
      ensures this.digest == digest && State() == folder
    {
      this.digest, files, dirs, ledger := digest, folder.files, folder.dirs, folder.ledger;
    }

    function State(): Folder
      reads this
    {
      Folder(files, dirs, ledger)
    }

    /** Every owned path and every asset, before anything is changed. */
    method Check(owned: map<Path, string>, source: seq<Asset>) returns (r: Option<Error>)
      ensures r.None? <==> Passes(digest, State(), owned, source)
      ensures r.Some? ==> IsObjection(digest, State(), owned, source, r.value)
    {
      hide Paths, IsFree, Collision;
      var todo := owned.Keys + Paths(source);
      while todo != {}
        invariant todo <= owned.Keys + Paths(source)
        invariant forall p :: p in owned.Keys + Paths(source) && p !in todo ==>
                    IsFree(digest, State(), owned, p)
        decreases |todo|
      {
        var p :| p in todo;
        r := Collision(digest, State(), owned, p);
        CollisionMeans(digest, State(), owned, p);
        if r.Some? {
          return;
        }
        todo := todo - {p};
      }
      r := None;
    }

    /** `rm --force` of every stale path, in order. A path that is not there is no error, but one below
        a file is. */
    method RemoveStale(entries: seq<(Path, string)>, source: seq<Asset>) returns (n: nat)
      modifies this`files
      ensures n <= |entries| && files == old(files) - Stale(Owned(entries[..n]), source)
      ensures if n < |entries| then IsFirstStuck(old(files), entries, source, n)
                else !IsJammed(old(files), entries, source)
    {
      hide Owned, Paths, IsBlocked, Above, Stale;
      n := 0;
      NothingRemoved(files, entries, source);
      while n < |entries|
        invariant n <= |entries| && files == old(files) - Stale(Owned(entries[..n]), source)
        invariant forall j: nat :: j < n ==> !IsStuck(old(files), entries, source, j)
      {
        var p := entries[n].0;
        RemovalStep(old(files), entries, source, n);
        BlockedAbove(files, p);
        if p !in Paths(source) {
          if Above(p) * files.Keys != {} {
            return;
          }
          files := files - {p};
        }
        n := n + 1;
      }
    }

    /** `mkdir -p` and `writeFile`, asset by asset; a file where a directory is needed stops it. */
    method WriteAssets(source: seq<Asset>) returns (owned: seq<(Path, string)>, n: nat)
      requires IsSource(source)
      modifies this`files, this`dirs
      ensures n <= |source|
                && (n < |source| <==> exists i :: 0 <= i < |source| && IsBlocked(old(files), source[i].path))
      ensures n < |source| ==> IsBlocked(old(files), source[n].path)
      ensures files == old(files) + AsMap(source[..n]) && dirs == old(dirs) + DirsOf(source[..n])
      ensures owned == Listed(digest, source[..n])
    {
      hide IsSource, AsMap, DirsOf, IsBlocked, Above;
      owned, n := [], 0;
      NothingWritten(digest, files, dirs);
      while n < |source|
        invariant n <= |source|
        invariant forall i :: 0 <= i < n ==> !IsBlocked(old(files), source[i].path)
        invariant files == old(files) + AsMap(source[..n]) && dirs == old(dirs) + DirsOf(source[..n])
        invariant owned == Listed(digest, source[..n])
      {
        var a := source[n];
        WriteStep(digest, old(files), old(dirs), source, n);
        if Above(a.path) * files.Keys != {} {
          return;
        }
        dirs := dirs + Above(a.path);
        files := files[a.path := a.bytes];
        owned := owned + [(a.path, digest(a.bytes))];
        n := n + 1;
      }
      assert source[..n] == source;
    }

    /** `stageDeployment`, the source already collected.

        Unless it stops at a file where a path needs a directory, it either changes nothing or ends
        with exactly the assets, none of the stale ones, and a ledger of exactly the assets' digests. */
    method Stage(source: seq<Asset>) returns (r: Result<map<Path, string>, Error>)
      requires IsSource(source)
      modifies this
      ensures Staged(digest, old(State()), source, r, State())
    {
      hide Passes, Collision, Stale, IsBlocked, AsMap, Listed, Owned, DirsOf, Staged, IsSource, Paths, IsJammed,
          IsFirstStuck;
      ghost var before := State();
      var entries := Entries(ledger);
      var owned := Previous(ledger);
      if owned.None? {
        BadLedgerStaged(digest, before, source);
        return Err(BadLedger);
      }
      var collision := Check(owned.value, source);
      if collision.Some? {
        CollisionStaged(digest, before, source, collision.value);
        return Err(collision.value);
      }
      var m := RemoveStale(entries, source);
      if m < |entries| {
        StuckStaged(digest, before, source, m, Folder(files, dirs, ledger));
        return Err(NotADirectory(entries[m].0));
      }
      assert entries[..m] == entries;
      EntriesOwned(before.ledger);
      var written, n := WriteAssets(source);
      if n < |source| {
        BlockedStaged(digest, before, source, n, Folder(files, dirs, ledger));
        return Err(NotADirectory(source[n].path));
      }
      ledger := Ledger(written);
      assert source[..n] == source;
      WrittenStaged(digest, before, source, written, Folder(files, dirs, ledger));
      return Ok(Owned(written));
    }

    /** The end of `buildDeployment`: what the build made of its two files becomes what was staged. */
    method Amend() returns (ok: bool)
      modifies this`ledger
      ensures ok <==> old(ledger).Ledger? && ["tsconfig.json"] in old(files) && ["next-env.d.ts"] in old(files)
      ensures State() == Amended(digest, old(State()))
    {
      if !ledger.Ledger? || TSCONFIG !in files || NEXT_ENV !in files {
        return false;
      }
      ledger := Ledger(ledger.entries + [(TSCONFIG, digest(files[TSCONFIG])), (NEXT_ENV, digest(files[NEXT_ENV]))]);
      ok := true;
    }
  }

  const TSCONFIG: Path := ["tsconfig.json"]
  const NEXT_ENV: Path := ["next-env.d.ts"]

  function Amended(digest: Content -> Digest, folder: Folder): Folder {
    if !folder.ledger.Ledger? || TSCONFIG !in folder.files || NEXT_ENV !in folder.files then folder
    else folder.(ledger := Ledger(folder.ledger.entries
        + [(TSCONFIG, digest(folder.files[TSCONFIG])), (NEXT_ENV, digest(folder.files[NEXT_ENV]))]))
  }

  /** Some asset needs a directory where a file stands that staging will not remove. */
  ghost predicate IsObstructed(folder: Folder, owned: map<Path, string>, source: seq<Asset>) {
    exists i :: 0 <= i < |source| && IsBlocked(folder.files - Stale(owned, source), source[i].path)
  }

  /** Everything one staging may do to the folder. */
  ghost predicate Staged(digest: Content -> Digest, before: Folder, source: seq<Asset>,
                         r: Result<map<Path, string>, Error>, after: Folder)
  {
    match Previous(before.ledger)
    case None => r == Err(BadLedger) && after == before
    case Some(owned) =>
      if !Passes(digest, before, owned, source) then
        r.Err? && IsObjection(digest, before, owned, source, r.error) && after == before
      else if IsJammed(before.files, Entries(before.ledger), source) then
        exists n: nat :: n < |Entries(before.ledger)| && r == Err(NotADirectory(Entries(before.ledger)[n].0))
            && HalfRemoved(before, source, n, after)
      else if IsObstructed(before, owned, source) then
        exists n :: 0 <= n < |source| && r == Err(NotADirectory(source[n].path))
            && HalfStaged(before, owned, source, n, after)
      else
        && r == Ok(Digests(digest, source))
        && after == Folder(before.files - Stale(owned, source) + AsMap(source), before.dirs + DirsOf(source),
                           Ledger(Listed(digest, source)))
  }

  /** The stale paths gone up to the first that lies below a file. */
  ghost predicate HalfRemoved(before: Folder, source: seq<Asset>, n: nat, after: Folder)
    requires n < |Entries(before.ledger)|
  {
    && IsFirstStuck(before.files, Entries(before.ledger), source, n)
    && after == before.(files := before.files - Stale(Owned(Entries(before.ledger)[..n]), source))
  }

  /** The stale assets gone, the first `n` written, and the ledger as before. */
  ghost predicate HalfStaged(before: Folder, owned: map<Path, string>, source: seq<Asset>, n: int, after: Folder)
    requires 0 <= n < |source|
  {
    && IsBlocked(before.files - Stale(owned, source), source[n].path)
    && after == Folder(before.files - Stale(owned, source) + AsMap(source[..n]), before.dirs + DirsOf(source[..n]),
                       before.ledger)
  }

  lemma BadLedgerStaged(digest: Content -> Digest, before: Folder, source: seq<Asset>)
    requires Previous(before.ledger).None?
    ensures Staged(digest, before, source, Err(BadLedger), before)
  {}

  lemma CollisionStaged(digest: Content -> Digest, before: Folder, source: seq<Asset>, e: Error)
    requires Previous(before.ledger).Some? && !Passes(digest, before, Previous(before.ledger).value, source)
    requires IsObjection(digest, before, Previous(before.ledger).value, source, e)
    ensures Staged(digest, before, source, Err(e), before)
  {}

  lemma StuckStaged(digest: Content -> Digest, before: Folder, source: seq<Asset>, n: nat, after: Folder)
    requires Previous(before.ledger).Some? && Passes(digest, before, Previous(before.ledger).value, source)
    requires n < |Entries(before.ledger)| && HalfRemoved(before, source, n, after)
    ensures Staged(digest, before, source, Err(NotADirectory(Entries(before.ledger)[n].0)), after)
  {
    hide IsStuck, Passes, Stale, AsMap, DirsOf;
  }

  lemma BlockedStaged(digest: Content -> Digest, before: Folder, source: seq<Asset>, n: nat, after: Folder)
    requires Previous(before.ledger).Some? && Passes(digest, before, Previous(before.ledger).value, source)
    requires !IsJammed(before.files, Entries(before.ledger), source)
    requires n < |source| && IsBlocked(before.files - Stale(Previous(before.ledger).value, source), source[n].path)
    requires after == Folder(before.files - Stale(Previous(before.ledger).value, source) + AsMap(source[..n]),
                             before.dirs + DirsOf(source[..n]), before.ledger)
    ensures Staged(digest, before, source, Err(NotADirectory(source[n].path)), after)
  {
    hide IsBlocked, Passes, Stale, AsMap, DirsOf;
    assert HalfStaged(before, Previous(before.ledger).value, source, n, after);
  }

  lemma WrittenStaged(digest: Content -> Digest, before: Folder, source: seq<Asset>, written: seq<(Path, string)>,
                      after: Folder)
    requires Previous(before.ledger).Some? && Passes(digest, before, Previous(before.ledger).value, source)
    requires !IsJammed(before.files, Entries(before.ledger), source)
    requires !exists i ::
               0 <= i < |source|
               && IsBlocked(before.files - Stale(Previous(before.ledger).value, source), source[i].path)
    requires written == Listed(digest, source)
    requires after == Folder(before.files - Stale(Previous(before.ledger).value, source) + AsMap(source),
                             before.dirs + DirsOf(source), Ledger(written))
    ensures Staged(digest, before, source, Ok(Owned(written)), after)
  {
    hide IsBlocked, IsJammed, Passes, Stale, AsMap, DirsOf, Listed, Owned;
  }

  lemma NothingWritten(digest: Content -> Digest, files: map<Path, Content>, dirs: set<Path>)
    ensures forall s: seq<Asset> :: s[..0] == []
    ensures files + AsMap([]) == files && dirs + DirsOf([]) == dirs
  {}

  lemma NothingRemoved(files: map<Path, Content>, entries: seq<(Path, string)>, source: seq<Asset>)
    ensures files - Stale(Owned(entries[..0]), source) == files
  {}

  lemma EntriesOwned(ledger: LedgerFile)
    ensures Previous(ledger).Some? ==> Previous(ledger).value == Owned(Entries(ledger))
  {}

  lemma BlockedAbove(files: map<Path, Content>, p: Path)
    ensures Above(p) * files.Keys != {} <==> IsBlocked(files, p)
  {
    if IsBlocked(files, p) {
      var k :| 0 < k < |p| && p[..k] in files;
      assert p[..k] in Above(p) * files.Keys;
    }
    if Above(p) * files.Keys != {} {
      var q :| q in Above(p) * files.Keys;
    }
  }

  lemma RemovalStep(files: map<Path, Content>, entries: seq<(Path, string)>, source: seq<Asset>, n: nat)
    requires n < |entries|
    ensures var p := entries[n].0; var left := files - Stale(Owned(entries[..n]), source);
            files - Stale(Owned(entries[..n + 1]), source) == if p in Paths(source) then left else left - {p}
  {
    assert entries[..n + 1][..n] == entries[..n];
  }

  lemma {:induction false} OwnedKeys(entries: seq<(Path, string)>, p: Path)
    ensures p in Owned(entries) <==> exists i :: 0 <= i < |entries| && entries[i].0 == p
  {
    if entries != [] {
      var n := |entries| - 1;
      OwnedKeys(entries[..n], p);
      assert entries[n].0 == p ==> p in Owned(entries);
      if i :| 0 <= i < n && entries[i].0 == p {
        assert entries[..n][i].0 == p;
      }
    }
  }

  lemma {:induction false} InAsMap(source: seq<Asset>, p: Path)
    ensures p in AsMap(source) <==> p in Paths(source)
  {
    if source != [] {
      var init, last := source[..|source| - 1], source[|source| - 1];
      assert source == init + [last];
      InAsMap(init, p);
      assert Paths(source) == Paths(init) + {last.path};
    }
  }

  lemma WriteStep(digest: Content -> Digest, files: map<Path, Content>, dirs: set<Path>, source: seq<Asset>, n: nat)
    requires IsSource(source) && n < |source|
    ensures var a := source[n]; var written := files + AsMap(source[..n]);
            && (Above(a.path) * written.Keys != {} <==> IsBlocked(files, a.path))
            && files + AsMap(source[..n + 1]) == written[a.path := a.bytes]
            && dirs + DirsOf(source[..n + 1]) == dirs + DirsOf(source[..n]) + Above(a.path)
            && Listed(digest, source[..n + 1]) == Listed(digest, source[..n]) + [(a.path, digest(a.bytes))]
  {
    var a, done := source[n], source[..n];
    assert source[..n + 1][..n] == done;
    var written := files + AsMap(done);
    forall k | 0 < k < |a.path| ensures a.path[..k] in written <==> a.path[..k] in files {
      InAsMap(done, a.path[..k]);
      NotAbove(source, n, k);
    }
    if IsBlocked(files, a.path) {
      var k :| 0 < k < |a.path| && a.path[..k] in files;
      assert a.path[..k] in Above(a.path) * written.Keys;
    }
    if Above(a.path) * written.Keys != {} {
      var q :| q in Above(a.path) * written.Keys;
    }
  }

  lemma NotAbove(source: seq<Asset>, n: nat, k: nat)
    requires IsSource(source) && n < |source| && k < |source[n].path|
    ensures source[n].path[..k] !in Paths(source[..n])
  {
    forall i | 0 <= i < n ensures source[i].path != source[n].path[..k] {
      assert !(source[i].path <= source[n].path);
    }
  }

  lemma OwnedPrefix(entries: seq<(Path, string)>, n: nat, p: Path)
    requires n <= |entries|
    ensures p in Owned(entries[..n]) ==> p in Owned(entries)
  {
    OwnedKeys(entries[..n], p);
    OwnedKeys(entries, p);
    if i :| 0 <= i < n && entries[..n][i].0 == p {
      assert entries[i].0 == p;
    }
  }

  // ----- what staging never does

  /** The file at `p` holds something staging did not put there. */
  ghost predicate IsForeign(digest: Content -> Digest, folder: Folder, p: Path, bytes: Content) {
    && p in folder.files && folder.files[p] == bytes
    && var owned := Owned(Entries(folder.ledger));
       !(p in owned && owned[p] == digest(bytes))
  }

  lemma {:induction false} DigestsOf(digest: Content -> Digest, source: seq<Asset>, p: Path)
    ensures p in Digests(digest, source) <==> p in Paths(source)
    ensures p in AsMap(source) ==>
              p in Digests(digest, source) && Digests(digest, source)[p] == digest(AsMap(source)[p])
  {
    if source != [] {
      var init, last := source[..|source| - 1], source[|source| - 1];
      assert source == init + [last];
      assert Listed(digest, source)[..|init|] == Listed(digest, init);
      DigestsOf(digest, init, p);
      InAsMap(init, p);
      assert Paths(source) == Paths(init) + {last.path};
    }
  }

  lemma PathOf(source: seq<Asset>, n: nat, p: Path)
    requires n <= |source| && p in Paths(source[..n])
    ensures p in Paths(source)
  {
    assert forall a :: a in source[..n] ==> a in source;
  }

  /** Whatever staging does, only paths that were absent or held exactly what was staged before are
      touched. */
  lemma OnlyOwnedTouched(digest: Content -> Digest, before: Folder, source: seq<Asset>,
                         r: Result<map<Path, string>, Error>, after: Folder, p: Path)
    requires Staged(digest, before, source, r, after)
    requires p in before.files && (p !in after.files || after.files[p] != before.files[p])
    ensures Previous(before.ledger).Some?
    ensures var owned := Previous(before.ledger).value; p in owned && owned[p] == digest(before.files[p])
  {
    hide AsMap, Listed, DirsOf, Paths, IsBlocked, IsJammed, IsFirstStuck, Owned;
    var owned := Previous(before.ledger).value;
    assert Passes(digest, before, owned, source);
    InAsMap(source, p);
    forall n | 0 <= n <= |Entries(before.ledger)| ensures p in Owned(Entries(before.ledger)[..n]) ==> p in owned {
      OwnedPrefix(Entries(before.ledger), n, p);
      EntriesOwned(before.ledger);
    }
    forall n | 0 <= n <= |source| ensures p in AsMap(source[..n]) ==> p in Paths(source) {
      InAsMap(source[..n], p);
      if p in Paths(source[..n]) {
        PathOf(source, n, p);
      }
    }
    assert p in owned.Keys + Paths(source);
    assert IsFree(digest, before, owned, p);
  }

  /** A staging that throws over a collision, a bad path or an unreadable ledger has changed nothing. */
  lemma ThrowsUnchanged(digest: Content -> Digest, before: Folder, source: seq<Asset>,
                        r: Result<map<Path, string>, Error>, after: Folder)
    requires Staged(digest, before, source, r, after) && r.Err? && !r.error.NotADirectory?
    ensures after == before
  {
    hide Passes, IsObstructed, AsMap, Listed, Owned, DirsOf;
  }

  /** Exactly when staging throws after its check: the check passes, but a stale path lies below a
      file, or a file that staging will not remove stands where some asset needs a directory. */
  lemma StopsMidwayIff(digest: Content -> Digest, before: Folder, source: seq<Asset>,
                       r: Result<map<Path, string>, Error>, after: Folder)
    requires Staged(digest, before, source, r, after)
    ensures var passes := Previous(before.ledger).Some?
              && Passes(digest, before, Previous(before.ledger).value, source);
            var stops := passes && (IsJammed(before.files, Entries(before.ledger), source)
                                    || IsObstructed(before, Previous(before.ledger).value, source));
            (r.Err? && r.error.NotADirectory? <==> stops) && (r.Ok? <==> passes && !stops)
  {
    hide Passes, IsJammed, IsObstructed, HalfStaged, HalfRemoved, AsMap, Listed, Owned, DirsOf, Stale;
  }

  /** No listed path lies below another. */
  ghost predicate IsFlat(entries: seq<(Path, string)>) {
    forall i, j :: 0 <= i < |entries| && 0 <= j < |entries| && |entries[i].0| < |entries[j].0| ==>
        !(entries[i].0 <= entries[j].0)
  }

  /** The removal stops exactly when a stale path lies below a file now, whatever the order, when no
      listed path lies below another; and then that file is not one the ledger lists. */
  lemma JammedIff(files: map<Path, Content>, entries: seq<(Path, string)>, source: seq<Asset>)
    requires IsFlat(entries)
    ensures IsJammed(files, entries, source) <==> exists p :: p in Stale(Owned(entries), source) && IsBlocked(files, p)
    ensures forall p, k :: p in Owned(entries) && 0 < k < |p| ==> p[..k] !in Owned(entries)
  {
    hide Stale, Owned;
    forall p, k | p in Owned(entries) && 0 < k < |p| ensures p[..k] !in Owned(entries) {
      OwnedKeys(entries, p);
      OwnedKeys(entries, p[..k]);
    }
    forall i: nat | i < |entries|
      ensures IsStuck(files, entries, source, i)
         <==> entries[i].0 in Stale(Owned(entries), source) && IsBlocked(files, entries[i].0)
    {
      StuckWhenBlocked(files, entries, source, i);
    }
    if p :| p in Stale(Owned(entries), source) && IsBlocked(files, p) {
      assert p in Owned(entries) by {
        StaleOwned(Owned(entries), source, p);
      }
      OwnedKeys(entries, p);
      var i :| 0 <= i < |entries| && entries[i].0 == p;
      assert IsStuck(files, entries, source, i);
    }
  }

  lemma StaleOwned(owned: map<Path, string>, source: seq<Asset>, p: Path)
    ensures p in Stale(owned, source) <==> p in owned && p !in Paths(source)
  {}

  lemma StuckWhenBlocked(files: map<Path, Content>, entries: seq<(Path, string)>, source: seq<Asset>, i: nat)
    requires IsFlat(entries) && i < |entries|
    ensures IsStuck(files, entries, source, i)
       <==> entries[i].0 in Stale(Owned(entries), source) && IsBlocked(files, entries[i].0)
  {
    hide Stale, Owned, Paths;
    var p, gone := entries[i].0, Stale(Owned(entries[..i]), source);
    OwnedKeys(entries, p);
    StaleOwned(Owned(entries), source, p);
    forall k | 0 < k < |p| ensures p[..k] !in gone {
      StaleOwned(Owned(entries[..i]), source, p[..k]);
      OwnedPrefix(entries, i, p[..k]);
      OwnedKeys(entries, p[..k]);
    }
    if IsBlocked(files, p) {
      var k :| 0 < k < |p| && p[..k] in files;
      assert p[..k] in files - gone;
    }
  }

  /** After success the assets are there, and the ledger lists exactly them with their digests; every
      path that is neither an asset nor was owned is as it was. */
  lemma LedgerIsExact(digest: Content -> Digest, before: Folder, source: seq<Asset>,
                      r: Result<map<Path, string>, Error>, after: Folder, p: Path)
    requires Staged(digest, before, source, r, after) && r.Ok?
    ensures after.ledger == Ledger(Listed(digest, source)) && Previous(after.ledger) == Some(r.value)
    ensures p in r.value <==> p in Paths(source)
    ensures p in Paths(source) ==>
              p in AsMap(source) && p in after.files && after.files[p] == AsMap(source)[p]
              && r.value[p] == digest(after.files[p])
    ensures p !in Paths(source) && p !in Previous(before.ledger).value ==>
              (p in after.files <==> p in before.files) && (p in before.files ==> after.files[p] == before.files[p])
    ensures p !in Paths(source) && p in Previous(before.ledger).value ==> p !in after.files
  {
    hide Passes, IsObstructed, IsJammed, AsMap, Listed, Owned, DirsOf, Paths;
    DigestsOf(digest, source, p);
    InAsMap(source, p);
  }

  lemma {:induction false} AssetAt(source: seq<Asset>, i: nat)
    requires IsSource(source) && i < |source|
    ensures source[i].path in AsMap(source) && AsMap(source)[source[i].path] == source[i].bytes
  {
    var n := |source| - 1;
    if i < n {
      assert source[..n][i] == source[i] && !(source[n].path <= source[i].path);
      AssetAt(source[..n], i);
    }
  }

  lemma {:induction false} DirsMean(source: seq<Asset>, q: Path)
    ensures q in DirsOf(source)
       <==> exists i, k :: 0 <= i < |source| && 0 < k < |source[i].path| && q == source[i].path[..k]
  {
    if source != [] {
      var n := |source| - 1;
      DirsMean(source[..n], q);
      if i, k :| 0 <= i < |source| && 0 < k < |source[i].path| && q == source[i].path[..k] {
        if i < n {
          assert source[..n][i] == source[i];
        }
      }
      if i, k :| 0 <= i < n && 0 < k < |source[..n][i].path| && q == source[..n][i].path[..k] {
        assert source[i] == source[..n][i];
      }
    }
  }

  /** A folder is a tree: no file is a directory, and what lies above a file or directory is one. */
  ghost predicate IsTree(folder: Folder) {
    && folder.files.Keys !! folder.dirs
    && (forall p, k :: (p in folder.files || p in folder.dirs) && 0 < k < |p| ==> p[..k] in folder.dirs)
  }

  lemma NoAssetIsDir(source: seq<Asset>, p: Path)
    requires IsSource(source) && p in Paths(source)
    ensures p !in DirsOf(source)
  {
    DirsMean(source, p);
    var j :| 0 <= j < |source| && source[j].path == p;
    forall i, k | 0 <= i < |source| && 0 < k < |source[i].path| ensures p != source[i].path[..k] {
      assert i != j ==> !(source[j].path <= source[i].path);
    }
  }

  lemma StagedDisjoint(digest: Content -> Digest, before: Folder, source: seq<Asset>,
                       r: Result<map<Path, string>, Error>, after: Folder, q: Path)
    requires IsSource(source) && IsTree(before) && Staged(digest, before, source, r, after) && r.Ok?
    requires q in after.files
    ensures q !in after.dirs
  {
    hide AsMap, Listed, Owned, DirsOf, Paths, IsSource, Above;
    var owned := Previous(before.ledger).value;
    InAsMap(source, q);
    DirsMean(source, q);
    assert Passes(digest, before, owned, source);
    if q in Paths(source) {
      NoAssetIsDir(source, q);
      assert IsFree(digest, before, owned, q);
    } else {
      var kept := before.files - Stale(owned, source);
      forall i, k | 0 <= i < |source| && 0 < k < |source[i].path| ensures q != source[i].path[..k] {
        assert !IsBlocked(kept, source[i].path);
      }
    }
  }

  lemma StagedClosed(digest: Content -> Digest, before: Folder, source: seq<Asset>, r: Result<map<Path, string>, Error>,
                     after: Folder, p: Path, k: nat)
    requires IsSource(source) && IsTree(before) && Staged(digest, before, source, r, after) && r.Ok?
    requires (p in after.files || p in after.dirs) && 0 < k < |p|
    ensures p[..k] in after.dirs
  {
    hide AsMap, Listed, Owned, DirsOf, IsSource, Above, IsObstructed, Passes;
    InAsMap(source, p);
    DirsMean(source, p);
    DirsMean(source, p[..k]);
    if p in Paths(source) {
      var a :| a in source && a.path == p;
      var i :| 0 <= i < |source| && source[i] == a;
      assert p[..k] == source[i].path[..k];
    } else if p in DirsOf(source) {
      var i, k' :| 0 <= i < |source| && 0 < k' < |source[i].path| && p == source[i].path[..k'];
      assert p[..k] == source[i].path[..k];
    }
  }

  /** A successful staging leaves a tree. */
  lemma StagedIsTree(digest: Content -> Digest, before: Folder, source: seq<Asset>, r: Result<map<Path, string>, Error>,
                     after: Folder)
    requires IsSource(source) && IsTree(before) && Staged(digest, before, source, r, after) && r.Ok?
    ensures IsTree(after)
  {
    hide Staged, IsSource;
    forall q | q in after.files ensures q !in after.dirs {
      StagedDisjoint(digest, before, source, r, after, q);
    }
    forall p, k | (p in after.files || p in after.dirs) && 0 < k < |p| ensures p[..k] in after.dirs {
      StagedClosed(digest, before, source, r, after, p, k);
    }
  }

  /** Staging the same assets again succeeds and changes nothing. */
  lemma RestageIsNoOp(digest: Content -> Digest, before: Folder, source: seq<Asset>,
                      r: Result<map<Path, string>, Error>, after: Folder,
                      r': Result<map<Path, string>, Error>, again: Folder)
    requires IsSource(source) && IsTree(before)
    requires Staged(digest, before, source, r, after) && r.Ok?
    requires Staged(digest, after, source, r', again)
    ensures r' == r && again == after
  {
    hide AsMap, Listed, Owned, DirsOf, Paths, IsSource, IsJammed;
    StagedIsTree(digest, before, source, r, after);
    var owned := r.value;
    assert Previous(after.ledger) == Some(owned);
    NothingStale(digest, source, after.files);
    forall p | p in owned.Keys + Paths(source) ensures IsFree(digest, after, owned, p) {
      DigestsOf(digest, source, p);
      LedgerIsExact(digest, before, source, r, after, p);
      assert Passes(digest, before, Previous(before.ledger).value, source);
      assert IsFree(digest, before, Previous(before.ledger).value, p);
      assert p in after.files;
    }
    assert Passes(digest, after, owned, source);
    forall i | 0 <= i < |source| ensures !IsBlocked(after.files - Stale(owned, source), source[i].path) {
      AssetAt(source, i);
      assert source[i].path in after.files;
    }
    assert !IsObstructed(after, owned, source);
    forall p ensures p in owned <==> p in Paths(source) {
      DigestsOf(digest, source, p);
    }
    assert Stale(owned, source) == {};
    SameAgain(before, source, owned, after);
  }

  /** A ledger of exactly the assets lists nothing that is stale. */
  lemma NothingStale(digest: Content -> Digest, source: seq<Asset>, files: map<Path, Content>)
    ensures !IsJammed(files, Listed(digest, source), source)
  {
    forall i: nat | i < |source| ensures source[i].path in Paths(source) {
      assert source[i] in source;
    }
  }

  lemma SameAgain(before: Folder, source: seq<Asset>, owned: map<Path, string>, after: Folder)
    requires Previous(before.ledger).Some?
    requires after.files == before.files - Stale(Previous(before.ledger).value, source) + AsMap(source)
    requires after.dirs == before.dirs + DirsOf(source) && Stale(owned, source) == {}
    ensures after.files - Stale(owned, source) + AsMap(source) == after.files
              && after.dirs + DirsOf(source) == after.dirs
  {}

  // ----- runs

  /** What can happen to the folder: a staging, the end of a build, or a consumer changing a file. */
  datatype Event =
    | StageEvent(source: seq<Asset>, result: Result<map<Path, string>, Error>)
    | AmendEvent
    | EditEvent(path: Path, bytes: Option<Content>)

  ghost predicate Step(digest: Content -> Digest, before: Folder, e: Event, after: Folder) {
    match e
    case StageEvent(source, result) => Staged(digest, before, source, result, after)
    case AmendEvent => after == Amended(digest, before)
    case EditEvent(path, bytes) =>
      after.ledger == before.ledger
      && after.files == if bytes.Some? then before.files[path := bytes.value] else before.files - {path}
  }

  ghost predicate IsRun(digest: Content -> Digest, folders: seq<Folder>, events: seq<Event>) {
    |folders| == |events| + 1 && forall i :: 0 <= i < |events| ==> Step(digest, folders[i], events[i], folders[i + 1])
  }

  lemma ForeignStays(digest: Content -> Digest, before: Folder, e: Event, after: Folder, p: Path, bytes: Content)
    requires Step(digest, before, e, after) && IsForeign(digest, before, p, bytes)
    requires e.EditEvent? ==> e.path != p
    requires e.AmendEvent? ==> p != TSCONFIG && p != NEXT_ENV
    ensures IsForeign(digest, after, p, bytes)
  {
    hide Owned;
    if e.StageEvent? {
      StagingKeepsForeign(digest, before, e.source, e.result, after, p, bytes);
    } else if e.AmendEvent? && after != before {
      AmendKeeps(before.ledger.entries, digest(before.files[TSCONFIG]), digest(before.files[NEXT_ENV]), p);
    }
  }

  lemma AmendKeeps(entries: seq<(Path, string)>, a: string, b: string, p: Path)
    requires p != TSCONFIG && p != NEXT_ENV
    ensures var more := entries + [(TSCONFIG, a), (NEXT_ENV, b)];
            (p in Owned(more) <==> p in Owned(entries)) && (p in Owned(entries) ==> Owned(more)[p] == Owned(entries)[p])
  {
    var more := entries + [(TSCONFIG, a), (NEXT_ENV, b)];
    var n := |entries|;
    assert more[..n + 1][..n] == entries && more[..n + 2] == more && more[..n + 1][n] == (TSCONFIG, a);
    assert Owned(more[..n + 1]) == Owned(entries)[TSCONFIG := a];
    assert more[..|more| - 1] == more[..n + 1];
  }

  lemma StagingKeepsForeign(digest: Content -> Digest, before: Folder, source: seq<Asset>,
                            r: Result<map<Path, string>, Error>, after: Folder, p: Path, bytes: Content)
    requires Staged(digest, before, source, r, after) && IsForeign(digest, before, p, bytes)
    ensures IsForeign(digest, after, p, bytes)
  {
    hide AsMap, Listed, Owned, DirsOf, Paths, IsBlocked;
    if p !in after.files || after.files[p] != before.files[p] {
      OnlyOwnedTouched(digest, before, source, r, after, p);
    }
    if r.Ok? {
      var owned := Previous(before.ledger).value;
      LedgerIsExact(digest, before, source, r, after, p);
      assert !IsFree(digest, before, owned, p);
      assert Passes(digest, before, owned, source);
      assert p !in owned.Keys + Paths(source);
    } else {
      LedgerKept(digest, before, source, r, after);
    }
  }

  lemma LedgerKept(digest: Content -> Digest, before: Folder, source: seq<Asset>, r: Result<map<Path, string>, Error>,
                   after: Folder)
    requires Staged(digest, before, source, r, after) && r.Err?
    ensures after.ledger == before.ledger
  {
    hide Passes, IsObstructed, AsMap, Listed, Owned, DirsOf, IsBlocked, Stale;
  }

  /** What a build amends is not the consumer's afterwards, whoever wrote it. */
  lemma AmendClaims(digest: Content -> Digest, before: Folder, p: Path, bytes: Content)
    requires before.ledger.Ledger? && p in {["tsconfig.json"], ["next-env.d.ts"]}
    requires {["tsconfig.json"], ["next-env.d.ts"]} <= before.files.Keys
    ensures !IsForeign(digest, Amended(digest, before), p, bytes)
  {
    var more := Amended(digest, before).ledger.entries;
    var one := more[..|more| - 1];
    assert one[|one| - 1] == (TSCONFIG, digest(before.files[TSCONFIG]));
    assert Owned(more) == Owned(one)[NEXT_ENV := digest(before.files[NEXT_ENV])];
    assert TSCONFIG != NEXT_ENV by {
      assert TSCONFIG[0] != NEXT_ENV[0];
    }
  }

  /** Every staging has the two files that a build amends, and a build amends them only after a
      staging that succeeded. */
  ghost predicate BuildsAfterStaging(events: seq<Event>) {
    forall i :: 0 <= i < |events| ==>
      && (events[i].StageEvent? ==> TSCONFIG in Paths(events[i].source) && NEXT_ENV in Paths(events[i].source))
      && (events[i].AmendEvent? ==> exists j :: 0 <= j < i && events[j].StageEvent? && events[j].result.Ok?)
  }

  /** A staging that wants the path of a consumer's file does not succeed. */
  lemma ForeignRefused(digest: Content -> Digest, before: Folder, source: seq<Asset>,
                       r: Result<map<Path, string>, Error>, after: Folder, p: Path, bytes: Content)
    requires Staged(digest, before, source, r, after) && IsForeign(digest, before, p, bytes) && p in Paths(source)
    ensures r.Err?
  {
    hide AsMap, Listed, Owned, DirsOf, Paths, IsBlocked, IsJammed, IsObstructed;
    EntriesOwned(before.ledger);
    if Previous(before.ledger).Some? {
      var owned := Previous(before.ledger).value;
      assert !IsFree(digest, before, owned, p);
      assert p in owned.Keys + Paths(source);
    }
  }

  /** Over any run of stagings, builds and consumer edits, a consumer's file keeps its bytes until the
      consumer edits it. For the two files a build amends, the builds must come after their stagings:
      an edit made while a build runs is taken for the build's. */
  lemma {:induction false} ConsumerFileSurvives(digest: Content -> Digest, folders: seq<Folder>, events: seq<Event>,
                                                p: Path, bytes: Content)
    requires IsRun(digest, folders, events) && IsForeign(digest, folders[0], p, bytes)
    requires p in {TSCONFIG, NEXT_ENV} ==> BuildsAfterStaging(events)
    requires forall i :: 0 <= i < |events| && events[i].EditEvent? ==> events[i].path != p
    ensures IsForeign(digest, folders[|events|], p, bytes)
    decreases |events|
  {
    hide Step, IsForeign, Paths, IsRun;
    if events != [] {
      var n := |events| - 1;
      RunPrefix(digest, folders, events, n);
      ConsumerFileSurvives(digest, folders[..n + 1], events[..n], p, bytes);
      if events[n].AmendEvent? && p in {TSCONFIG, NEXT_ENV} {
        var j :| 0 <= j < n && events[j].StageEvent? && events[j].result.Ok?;
        RunPrefix(digest, folders, events, j);
        ConsumerFileSurvives(digest, folders[..j + 1], events[..j], p, bytes);
        ForeignRefused(digest, folders[j], events[j].source, events[j].result, folders[j + 1], p, bytes);
        assert false;
      }
      ForeignStays(digest, folders[n], events[n], folders[n + 1], p, bytes);
    }
  }

  lemma RunPrefix(digest: Content -> Digest, folders: seq<Folder>, events: seq<Event>, n: nat)
    requires IsRun(digest, folders, events) && n < |events|
    ensures |folders| == |events| + 1 && IsRun(digest, folders[..n + 1], events[..n])
              && Step(digest, folders[n], events[n], folders[n + 1])
    ensures events[n].StageEvent? ==> Staged(digest, folders[n], events[n].source, events[n].result, folders[n + 1])
    ensures BuildsAfterStaging(events) ==> BuildsAfterStaging(events[..n])
  {
    hide Staged, Paths;
    forall i | 0 <= i < n ensures Step(digest, folders[..n + 1][i], events[..n][i], folders[..n + 1][i + 1]) {
      assert Step(digest, folders[i], events[i], folders[i + 1]);
    }
    if BuildsAfterStaging(events) {
      forall i | 0 <= i < n && events[..n][i].AmendEvent?
        ensures exists j :: 0 <= j < i && events[..n][j].StageEvent? && events[..n][j].result.Ok?
      {
        assert events[i].AmendEvent?;
        var j :| 0 <= j < i && events[j].StageEvent? && events[j].result.Ok?;
        assert events[..n][j] == events[j];
      }
    }
  }

  // ----- the ledger over a run

  ghost predicate ListsBoth(entries: seq<(Path, string)>) {
    && (exists i :: 0 <= i < |entries| && entries[i].0 == TSCONFIG)
    && (exists i :: 0 <= i < |entries| && entries[i].0 == NEXT_ENV)
  }

  /** What a staging writes is flat, and has the two files if its source has them. */
  lemma ListedFlat(digest: Content -> Digest, source: seq<Asset>)
    requires IsSource(source)
    ensures IsFlat(Listed(digest, source))
    ensures TSCONFIG in Paths(source) && NEXT_ENV in Paths(source) ==> ListsBoth(Listed(digest, source))
  {
    forall i | 0 <= i < |source| ensures Listed(digest, source)[i].0 == source[i].path {}
  }

  /** A build's amendment of a ledger that has the two files keeps it flat. */
  lemma AmendedFlat(entries: seq<(Path, string)>, a: string, b: string)
    requires IsFlat(entries) && ListsBoth(entries)
    ensures IsFlat(entries + [(TSCONFIG, a), (NEXT_ENV, b)]) && ListsBoth(entries + [(TSCONFIG, a), (NEXT_ENV, b)])
  {
    var more := entries + [(TSCONFIG, a), (NEXT_ENV, b)];
    var t :| 0 <= t < |entries| && entries[t].0 == TSCONFIG;
    var n :| 0 <= n < |entries| && entries[n].0 == NEXT_ENV;
    forall i, j | 0 <= i < |more| && 0 <= j < |more| && |more[i].0| < |more[j].0|
      ensures !(more[i].0 <= more[j].0)
    {
      var i' := if i < |entries| then i else if i == |entries| then t else n;
      var j' := if j < |entries| then j else if j == |entries| then t else n;
      assert more[i].0 == entries[i'].0 && more[j].0 == entries[j'].0;
    }
    assert more[t] == entries[t] && more[n] == entries[n];
  }

  ghost predicate HasStaged(events: seq<Event>) {
    exists j :: 0 <= j < |events| && events[j].StageEvent? && events[j].result.Ok?
  }

  ghost predicate AllSources(events: seq<Event>) {
    forall i :: 0 <= i < |events| && events[i].StageEvent? ==> IsSource(events[i].source)
  }

  /** Over any run of stagings, builds after them and consumer edits, a ledger that was flat, or not
      there, stays flat, and lists the two amended files from the first successful staging on. */
  lemma {:induction false} LedgerStaysFlat(digest: Content -> Digest, folders: seq<Folder>, events: seq<Event>)
    requires IsRun(digest, folders, events) && BuildsAfterStaging(events) && AllSources(events)
    requires IsFlat(Entries(folders[0].ledger))
    ensures IsFlat(Entries(folders[|events|].ledger))
    ensures HasStaged(events) ==> ListsBoth(Entries(folders[|events|].ledger))
    decreases |events|
  {
    hide Paths, IsRun, IsFlat, ListsBoth, IsSource, Step, Staged, BuildsAfterStaging, HasStaged, AllSources;
    if events == [] {
      NothingStaged();
    } else {
      var n := |events| - 1;
      RunPrefix(digest, folders, events, n);
      LastEvent(events);
      LedgerStaysFlat(digest, folders[..n + 1], events[..n]);
      FlatStep(digest, folders[n], events[n], folders[n + 1]);
    }
  }

  lemma NothingStaged()
    ensures !HasStaged([])
  {}

  /** What the last event may be, and what it adds. */
  lemma LastEvent(events: seq<Event>)
    requires events != [] && BuildsAfterStaging(events) && AllSources(events)
    ensures var init, last := events[..|events| - 1], events[|events| - 1];
            && AllSources(init)
            && (last.StageEvent? ==>
                 IsSource(last.source) && TSCONFIG in Paths(last.source) && NEXT_ENV in Paths(last.source))
            && (last.AmendEvent? ==> HasStaged(init))
            && (HasStaged(events) ==> HasStaged(init) || (last.StageEvent? && last.result.Ok?))
  {
    hide Paths, IsSource;
    var n := |events| - 1;
    assert forall j :: 0 <= j < n ==> events[..n][j] == events[j];
  }

  lemma FlatStep(digest: Content -> Digest, before: Folder, e: Event, after: Folder)
    requires Step(digest, before, e, after) && IsFlat(Entries(before.ledger))
    requires e.StageEvent? ==> IsSource(e.source) && TSCONFIG in Paths(e.source) && NEXT_ENV in Paths(e.source)
    requires e.AmendEvent? ==> ListsBoth(Entries(before.ledger))
    ensures IsFlat(Entries(after.ledger))
    ensures ListsBoth(Entries(before.ledger)) || (e.StageEvent? && e.result.Ok?) ==> ListsBoth(Entries(after.ledger))
  {
    hide Paths, IsFlat, ListsBoth, IsSource, Staged;
    if e.StageEvent? {
      if e.result.Ok? {
        LedgerIsExact(digest, before, e.source, e.result, after, []);
        ListedFlat(digest, e.source);
      } else {
        LedgerKept(digest, before, e.source, e.result, after);
      }
    } else if e.AmendEvent? && after != before {
      AmendedFlat(before.ledger.entries, digest(before.files[TSCONFIG]), digest(before.files[NEXT_ENV]));
    }
  }

  /** So in every staging of such a run the removal stops exactly when a stale path lies below a file. */
  lemma JammedIffInRun(digest: Content -> Digest, folders: seq<Folder>, events: seq<Event>, i: nat)
    requires IsRun(digest, folders, events) && BuildsAfterStaging(events) && AllSources(events)
    requires IsFlat(Entries(folders[0].ledger)) && i < |events| && events[i].StageEvent?
    ensures i < |folders|
    ensures var entries, source := Entries(folders[i].ledger), events[i].source;
            && (IsJammed(folders[i].files, entries, source) <==>
                  exists p :: p in Stale(Owned(entries), source) && IsBlocked(folders[i].files, p))
  {
    hide IsFlat, IsJammed, Stale, Owned, IsBlocked, Step, IsSource;
    RunPrefix(digest, folders, events, i);
    LedgerStaysFlat(digest, folders[..i + 1], events[..i]);
    JammedIff(folders[i].files, Entries(folders[i].ledger), events[i].source);
  }

  // ----- a staging that stopped midway

  /** A file that a stopped staging left where nothing was owned is a consumer's file to every later
      staging that wants the path: it refuses, and nothing changes again. */
  lemma LeftoverRefused(digest: Content -> Digest, before: Folder, source: seq<Asset>,
                        r: Result<map<Path, string>, Error>, after: Folder,
                        p: Path, source': seq<Asset>, r': Result<map<Path, string>, Error>, again: Folder)
    requires Staged(digest, before, source, r, after) && r.Err? && r.error.NotADirectory?
    requires p in after.files && p !in Previous(before.ledger).value && p in Paths(source')
    requires Staged(digest, after, source', r', again)
    ensures r'.Err? && again == after
  {
    hide AsMap, Listed, Owned, DirsOf, Paths, IsBlocked, IsObstructed;
    LedgerKept(digest, before, source, r, after);
    var owned := Previous(before.ledger).value;
    assert !IsFree(digest, after, owned, p);
    assert p in owned.Keys + Paths(source');
  }

  function NumberOfBytes(bytes: Content): Digest {
    if bytes == [] then "0" else "1"
  }

  /** It happens: a consumer keeps a file named `b` where a later version needs a directory, and the
      staging writes `a` before it stops. */
  lemma StopsMidway()
    ensures var source := [Asset(["a"], []), Asset(["b", "c"], [])];
            var before := Folder(map[["b"] := [1]], {}, Absent);
            var after := Folder(map[["b"] := [1], ["a"] := []], {}, Absent);
            && IsSource(source) && IsTree(before)
            && Staged(NumberOfBytes, before, source, Err(NotADirectory(["b", "c"])), after)
  {
    var a, b := Asset(["a"], []), Asset(["b", "c"], []);
    var source := [a, b];
    var before := Folder(map[["b"] := [1]], {}, Absent);
    var after := Folder(map[["b"] := [1], ["a"] := []], {}, Absent);
    var none: map<Path, string> := map[];
    NothingCollides(before, source);
    assert Stale(none, source) == {} && before.files - {} == before.files;
    assert source[..1] == [a] && source[1].path[..1] == ["b"];
    assert IsBlocked(before.files, source[1].path);
    assert IsSource(source) by {
      assert a.path[0] != b.path[0];
    }
    hide Passes, IsBlocked, Stale, Paths, IsSource, Staged, IsJammed;
    FirstWritten(a);
    NotJammed(before.files, source);
    assert before.files + AsMap([a]) == after.files;
    BlockedStaged(NumberOfBytes, before, source, 1, after);
  }

  lemma NothingCollides(before: Folder, source: seq<Asset>)
    requires before == Folder(map[["b"] := [1]], {}, Absent) && source == [Asset(["a"], []), Asset(["b", "c"], [])]
    ensures Passes(NumberOfBytes, before, map[], source)
  {
    forall p | p in Paths(source) ensures IsFree(NumberOfBytes, before, map[], p) {
      var a :| a in source && a.path == p;
      assert a == source[0] || a == source[1];
    }
  }

  lemma NotJammed(files: map<Path, Content>, source: seq<Asset>)
    ensures !IsJammed(files, [], source)
  {}

  /** And a consumer's file named `b`, where the ledger still lists `b/c`, stops the removal after `a`
      is gone. */
  lemma RemovalStops()
    ensures var entries := [(["a"], "0"), (["b", "c"], "0")];
            var before := Folder(map[["a"] := [], ["b"] := [1]], {}, Ledger(entries));
            var after := Folder(map[["b"] := [1]], {}, Ledger(entries));
            IsTree(before) && Staged(NumberOfBytes, before, [], Err(NotADirectory(["b", "c"])), after)
  {
    var entries := [(["a"], "0"), (["b", "c"], "0")];
    var before := Folder(map[["a"] := [], ["b"] := [1]], {}, Ledger(entries));
    var after := Folder(map[["b"] := [1]], {}, Ledger(entries));
    assert entries[..2] == entries && entries[..1] == [entries[0]] && entries[..1][..0] == [] == entries[..0];
    var one: map<Path, string> := map[["a"] := "0"];
    assert Owned(entries[..1]) == one && Owned(entries[..0]) == map[];
    assert Owned(entries) == one[["b", "c"] := "0"];
    assert Paths([]) == {};
    assert Stale(one, []) == {["a"]} && Stale(map[], []) == {};
    assert Passes(NumberOfBytes, before, Owned(entries), []);
    assert before.files - {} == before.files && before.files - {["a"]} == after.files;
    assert entries[1].0[..1] == ["b"];
    assert IsBlocked(after.files, entries[1].0);
    assert IsFirstStuck(before.files, entries, [], 1);
    StuckStaged(NumberOfBytes, before, [], 1, after);
  }

  lemma FirstWritten(a: Asset)
    requires |a.path| == 1
    ensures AsMap([a]) == map[a.path := a.bytes] && DirsOf([a]) == {}
  {
    assert [a][..0] == [];
    assert AsMap([]) == map[] && DirsOf([]) == {} && Above(a.path) == {};
  }
}
