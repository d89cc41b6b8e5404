/** `runRelease` of release.ts as a run over a checkout and its public remotes. Commands are asked for
    in the program's order; whether each succeeds is an input of the run. */
module ReleaseProcedure {
  import opened Wrappers
  import LayeredOrder
  import PublishOrder

  type Files = map<string, string>

  /** A commit is its history and its tree. */
  datatype Commit = Root(files: Files) | Child(parent: Commit, files: Files)

  /** The checkout: HEAD, local tags and the worktree. */
  datatype Local = Local(head: Commit, tags: map<string, Commit>, files: Files)

  /** What the world can see: the remote's base branch and tags, and what this run has published. */
  datatype Remote = Remote(branch: Commit, tags: map<string, Commit>, release: Option<string>, archive: bool,
                           published: seq<PublishOrder.Package>)

  datatype File = File(path: string, content: string)

  /** What this release is to change and publish. `gateFiles` are the version-bearing files the gates
      run against; `changelog` is only known once they have passed. */
  datatype Plan = Plan(tag: string, packages: seq<PublishOrder.Package>, prerelease: bool, dryRun: bool,
                       gateFiles: seq<File>, changelog: File, notes: string, pending: seq<string>)

  /** A quality gate: what it does to the checkout, its exit status, and whether Git can be asked what
      it changed. */
  datatype Gate = Gate(effect: Local -> Local, exitOk: bool, statusOk: bool)

  /** How the commands of one run come out. `checks` stands for every question before the gates whose
      answer is not in the model's state: manifests, login, branch, remote lookups, fetch. */
  datatype Outcomes = Outcomes(
    checks: bool, gates: seq<Gate>, datedOk: bool, headOk: bool,
    install: Option<string>, lockStatusOk: bool, diffOk: bool, addOk: bool, stagedOk: bool,
    commitOk: bool, tagOk: bool, resolveOk: bool, smokeOk: bool, pushOk: bool,
    canonicalOk: bool, releaseOk: bool, archiveOk: bool, publishOk: nat -> bool, statusOk: bool)

  datatype GateFailure = NotInspected | ChangedWorktree | GateFailed

  datatype Failure =
    | Preflight
    | AtGates(failure: GateFailure)
    | Undated
    | BeforePush
    | CanonicalSmoke
    | NoRelease
    | NoArchive
    | Unpublished(remaining: seq<PublishOrder.Package>)
    | DirtyAfter

  datatype Done = DryRun | Released

  const LOCKFILE := "bun.lock"

  // ----- files

  function Get(files: Files, path: string): Option<string> {
    if path in files then Some(files[path]) else None
  }

  function Put(files: Files, path: string, content: Option<string>): (r: Files)
    ensures Get(r, path) == content && forall q :: q != path ==> Get(r, q) == Get(files, q)
  {
    if content.Some? then files[path := content.value] else files - {path}
  }

  function PathsOf(files: seq<File>): set<string> { set f | f in files :: f.path }

  /** What Git looks at: tracked paths, and untracked ones no ignore rule hides. */
  predicate IsVisible(ignored: string -> bool, head: Commit, path: string) {
    path in head.files || !ignored(path)
  }

  /** `git status` without the excluded paths is empty. */
  predicate IsClean(ignored: string -> bool, l: Local, except: set<string>)
  {
    forall p :: p in l.files.Keys + l.head.files.Keys && p !in except && IsVisible(ignored, l.head, p) ==>
      Get(l.files, p) == Get(l.head.files, p)
  }

  /** The worktree holds the tree of a commit, as far as Git looks. */
  ghost predicate Holds(ignored: string -> bool, files: Files, head: Commit, except: set<string>) {
    forall p :: p !in except && IsVisible(ignored, head, p) ==> Get(files, p) == Get(head.files, p)
  }

  lemma CleanHolds(ignored: string -> bool, l: Local, except: set<string>)
    ensures IsClean(ignored, l, except) <==> Holds(ignored, l.files, l.head, except)
  {
    if IsClean(ignored, l, except) {
      forall p | p !in except && IsVisible(ignored, l.head, p) ensures Get(l.files, p) == Get(l.head.files, p) {
        if p in l.files.Keys + l.head.files.Keys {
        }
      }
    }
  }

  /** Nothing a user of Git could tell apart. */
  ghost predicate Same(ignored: string -> bool, a: Local, b: Local) {
    a.head == b.head && a.tags == b.tags
        && forall p :: IsVisible(ignored, b.head, p) ==> Get(a.files, p) == Get(b.files, p)
  }

  function Written(files: Files, writes: seq<File>): Files {
    if writes == [] then files
    else
      var last := writes[|writes| - 1];
      Put(Written(files, writes[..|writes| - 1]), last.path, Some(last.content))
  }

  lemma {:induction false} WrittenMeans(files: Files, writes: seq<File>)
    ensures forall p :: p !in PathsOf(writes) ==> Get(Written(files, writes), p) == Get(files, p)
    ensures forall f :: f in writes ==> f.path in Written(files, writes)
    ensures forall i :: 0 <= i < |writes| && (forall j :: i < j < |writes| ==> writes[j].path != writes[i].path) ==>
              Get(Written(files, writes), writes[i].path) == Some(writes[i].content)
  {
    if writes != [] {
      var init, last := writes[..|writes| - 1], writes[|writes| - 1];
      assert writes == init + [last];
      WrittenMeans(files, init);
      var before := Written(files, init);
      forall p | p !in PathsOf(writes) ensures Get(Written(files, writes), p) == Get(files, p) {
        assert forall f :: f in init ==> f in writes;
        assert last in writes;
      }
      forall i | 0 <= i < |writes| && (forall j :: i < j < |writes| ==> writes[j].path != writes[i].path)
        ensures Get(Written(files, writes), writes[i].path) == Some(writes[i].content)
      {
        if i < |init| {
          assert writes[|init|].path != writes[i].path;
          forall j | i < j < |init| ensures init[j].path != init[i].path {
            assert writes[j].path != writes[i].path;
          }
        }
      }
    }
  }

  /** What a gate that has just run comes to: the worktree outside the version files must still be
      clean and the version files still hold what was written. */
  function Verdict(ignored: string -> bool, plan: Plan, gate: Gate, l: Local): Option<GateFailure> {
    if !gate.statusOk || exists f :: f in plan.gateFiles && f.path !in l.files then Some(NotInspected)
    else if !IsClean(ignored, l, PathsOf(plan.gateFiles))
        || exists f :: f in plan.gateFiles && l.files[f.path] != f.content then Some(ChangedWorktree)
    else if !gate.exitOk then Some(GateFailed)
    else None
  }

  datatype GateRun = GateRun(failure: Option<GateFailure>, left: Local)

  /** The gates one after another, up to the first failure. */
  function GatesFrom(ignored: string -> bool, plan: Plan, gates: seq<Gate>, l: Local): GateRun {
    if gates == [] then GateRun(None, l)
    else
      var next := gates[0].effect(l);
      var verdict := Verdict(ignored, plan, gates[0], next);
      if verdict.Some? then GateRun(verdict, next) else GatesFrom(ignored, plan, gates[1..], next)
  }

  /** The gates at the target version. */
  function GateResult(ignored: string -> bool, plan: Plan, gates: seq<Gate>, l: Local): GateRun {
    GatesFrom(ignored, plan, gates, l.(files := Written(l.files, plan.gateFiles)))
  }

  // ----- what the gates' verdict means

  /** The checkout after the first `n` gates, whatever they made of it. */
  function AfterGates(gates: seq<Gate>, l: Local, n: nat): Local
    requires n <= |gates|
    decreases n
  {
    if n == 0 then l else AfterGates(gates[1..], gates[0].effect(l), n - 1)
  }

  /** Every version file still holds what was written, and Git sees no other change. */
  ghost predicate IsUndisturbed(ignored: string -> bool, plan: Plan, l: Local) {
    && (forall f :: f in plan.gateFiles ==> Get(l.files, f.path) == Some(f.content))
    && Holds(ignored, l.files, l.head, PathsOf(plan.gateFiles))
  }

  ghost predicate HasPassed(ignored: string -> bool, plan: Plan, g: Gate, l: Local) {
    g.statusOk && g.exitOk && IsUndisturbed(ignored, plan, l)
  }

  /** Gate `n` is the first that does not pass, and fails this way. */
  ghost predicate FailsFirst(ignored: string -> bool, plan: Plan, gates: seq<Gate>, l: Local, n: nat, f: GateFailure) {
    && n < |gates|
    && (forall i :: 0 <= i < n ==> HasPassed(ignored, plan, gates[i], AfterGates(gates, l, i + 1)))
    && var g, after := gates[n], AfterGates(gates, l, n + 1);
       match f
       case NotInspected => !g.statusOk || exists v :: v in plan.gateFiles && v.path !in after.files
       case ChangedWorktree =>
         && g.statusOk && (forall v :: v in plan.gateFiles ==> v.path in after.files)
         && !IsUndisturbed(ignored, plan, after)
       case GateFailed => g.statusOk && IsUndisturbed(ignored, plan, after) && !g.exitOk
  }

  lemma VerdictMeans(ignored: string -> bool, plan: Plan, g: Gate, l: Local)
    ensures Verdict(ignored, plan, g, l).None? <==> HasPassed(ignored, plan, g, l)
    ensures forall f :: Verdict(ignored, plan, g, l) == Some(f) <==>
              match f
              case NotInspected => !g.statusOk || exists v :: v in plan.gateFiles && v.path !in l.files
              case ChangedWorktree =>
                && g.statusOk && (forall v :: v in plan.gateFiles ==> v.path in l.files)
                && !IsUndisturbed(ignored, plan, l)
              case GateFailed => g.statusOk && IsUndisturbed(ignored, plan, l) && !g.exitOk
  {
    CleanHolds(ignored, l, PathsOf(plan.gateFiles));
    hide IsClean, Holds, PathsOf;
  }

  /** The gates end without a failure exactly when every one of them passes: it exits well, Git can be
      asked, every version file still holds its content, and nothing else has changed. Otherwise they
      end at the first that does not. */
  lemma {:induction false} GatesMean(ignored: string -> bool, plan: Plan, gates: seq<Gate>, l: Local)
    ensures var run := GatesFrom(ignored, plan, gates, l);
            match run.failure
            case None =>
              && run.left == AfterGates(gates, l, |gates|)
              && forall n :: 0 <= n < |gates| ==> HasPassed(ignored, plan, gates[n], AfterGates(gates, l, n + 1))
            case Some(f) => exists n: nat ::
                FailsFirst(ignored, plan, gates, l, n, f) && run.left == AfterGates(gates, l, n + 1)
  {
    hide HasPassed, Verdict, IsUndisturbed;
    if gates != [] {
      var next := gates[0].effect(l);
      VerdictMeans(ignored, plan, gates[0], next);
      assert AfterGates(gates, l, 1) == next;
      if Verdict(ignored, plan, gates[0], next).None? {
        GatesMean(ignored, plan, gates[1..], next);
        var run := GatesFrom(ignored, plan, gates[1..], next);
        if run.failure.Some? {
          var n: nat :| FailsFirst(ignored, plan, gates[1..], next, n, run.failure.value)
            && run.left == AfterGates(gates[1..], next, n + 1);
          FailsLater(ignored, plan, gates, l, n, run.failure.value);
        } else {
          forall n | 0 <= n < |gates| ensures HasPassed(ignored, plan, gates[n], AfterGates(gates, l, n + 1)) {
            if n > 0 {
              assert gates[n] == gates[1..][n - 1] && AfterGates(gates, l, n + 1) == AfterGates(gates[1..], next, n);
            }
          }
        }
      } else {
        assert FailsFirst(ignored, plan, gates, l, 0, Verdict(ignored, plan, gates[0], next).value);
      }
    }
  }

  lemma FailsLater(ignored: string -> bool, plan: Plan, gates: seq<Gate>, l: Local, n: nat, f: GateFailure)
    requires gates != [] && FailsFirst(ignored, plan, gates[1..], gates[0].effect(l), n, f)
    requires HasPassed(ignored, plan, gates[0], gates[0].effect(l))
    ensures FailsFirst(ignored, plan, gates, l, n + 1, f)
    ensures AfterGates(gates, l, n + 2) == AfterGates(gates[1..], gates[0].effect(l), n + 1)
  {
    hide HasPassed, IsUndisturbed;
    var next := gates[0].effect(l);
    assert AfterGates(gates, l, 1) == next;
    forall i | 0 <= i < n + 1 ensures HasPassed(ignored, plan, gates[i], AfterGates(gates, l, i + 1)) {
      if i > 0 {
        assert gates[i] == gates[1..][i - 1] && AfterGates(gates, l, i + 1) == AfterGates(gates[1..], next, i);
      }
    }
    assert gates[n + 1] == gates[1..][n];
  }

  predicate IsAncestor(a: Commit, b: Commit) {
    a == b || (b.Child? && IsAncestor(a, b.parent))
  }

  function Edits(plan: Plan): seq<File> {
    (if plan.prerelease then [] else [plan.changelog]) + plan.gateFiles
  }

  function Deleted(plan: Plan): seq<string> {
    if plan.prerelease then [] else plan.pending
  }

  function ReleasePaths(plan: Plan, lockfileChanged: bool): seq<string> {
    var edits := Edits(plan);
    Deleted(plan) + seq(|edits|, i requires 0 <= i < |edits| => edits[i].path)
    + if lockfileChanged then [LOCKFILE] else []
  }

  predicate Distinct(s: seq<string>) {
    forall i, j :: 0 <= i < j < |s| ==> s[i] != s[j]
  }

  function Members(s: seq<string>): set<string> { set x | x in s }

  lemma DistinctSnoc(s: seq<string>, n: nat)
    requires n < |s| && Distinct(s[..n])
    ensures Members(s[..n + 1]) == Members(s[..n]) + {s[n]}
    ensures Distinct(s[..n + 1]) <==> s[n] !in Members(s[..n])
    ensures s[n] in Members(s[..n]) ==> !Distinct(s)
    ensures forall x :: x in s[..n + 1] <==> x in s[..n] || x == s[n]
  {
    assert s[..n + 1] == s[..n] + [s[n]];
    if s[n] in s[..n] {
      var i :| 0 <= i < n && s[..n][i] == s[n];
      assert s[..n + 1][i] == s[..n + 1][n] && s[i] == s[n];
    }
  }

  /** The worktree of the release commit, edit by edit: the candidates, the refreshed lockfile, and the
      pending fragments gone. */
  function Installed(o: Outcomes, files: Files): Files {
    if LOCKFILE in files && o.install.Some? then files[LOCKFILE := o.install.value] else files
  }

  function Edited(plan: Plan, o: Outcomes, files: Files): Files {
    Installed(o, Written(files, Edits(plan))) - Members(Deleted(plan))
  }

  predicate LockChanged(ignored: string -> bool, plan: Plan, o: Outcomes, l: Local) {
    var written := Written(l.files, Edits(plan));
    LOCKFILE in written && IsVisible(ignored, l.head, LOCKFILE)
    && Get(Installed(o, written), LOCKFILE) != Get(l.head.files, LOCKFILE)
  }

  /** The edits go through: the lockfile, where there is one, is refreshed and looked at, and every
      pending fragment is there to be deleted, once. */
  ghost predicate CanEdit(plan: Plan, o: Outcomes, files: Files) {
    var written := Written(files, Edits(plan));
    && (LOCKFILE in written ==> o.install.Some? && o.lockStatusOk)
    && Distinct(Deleted(plan)) && forall p :: p in Deleted(plan) ==> p in Installed(o, written)
  }

  /** The commit goes through: no command fails, and the release paths are some, each once, none hidden
      by an ignore rule, and each of them changed. */
  ghost predicate CanCommit(ignored: string -> bool, o: Outcomes, head: Commit, files: Files, paths: seq<string>) {
    && o.diffOk && o.addOk && o.stagedOk && o.commitOk
    && paths != [] && Distinct(paths)
    && forall p :: p in paths ==> IsVisible(ignored, head, p) && Get(files, p) != Get(head.files, p)
  }

  ghost predicate CanPrepare(ignored: string -> bool, plan: Plan, o: Outcomes, l: Local) {
    && CanEdit(plan, o, l.files)
    && CanCommit(ignored, o, l.head, Edited(plan, o, l.files), ReleasePaths(plan, LockChanged(ignored, plan, o, l)))
    && o.tagOk && o.resolveOk && o.smokeOk
  }

  /** A release changes the version files; the changelog and the pending fragments as well unless it is
      a prerelease; and the lockfile when the installation changed it. */
  ghost predicate IsReleased(plan: Plan, lockfileChanged: bool, p: string) {
    || (exists f :: f in plan.gateFiles && f.path == p)
    || (!plan.prerelease && (p == plan.changelog.path || p in plan.pending))
    || (lockfileChanged && p == "bun.lock")
  }

  /** What a release commit holds: the tree before, with exactly those paths changed. */
  ghost predicate IsReleaseTree(plan: Plan, lockfile: Option<string>, lockfileChanged: bool, before: Files,
                                after: Files)
  {
    && (forall p :: IsReleased(plan, lockfileChanged, p) <==> Get(after, p) != Get(before, p))
    && (forall f :: f in plan.gateFiles ==> Get(after, f.path) == Some(f.content))
    && (!plan.prerelease ==> Get(after, plan.changelog.path) == Some(plan.changelog.content))
    && (!plan.prerelease ==> forall p :: p in plan.pending ==> p !in after)
    && (lockfileChanged ==> lockfile.Some? && Get(after, "bun.lock") == lockfile)
  }

  /** `git commit -- paths` */
  function Overlay(tree: Files, files: Files, paths: seq<string>): (r: Files)
    ensures forall p :: Get(r, p) == if p in paths then Get(files, p) else Get(tree, p)
  {
    map p | p in tree.Keys + files.Keys && (if p in paths then p in files else p in tree) ::
        if p in paths then files[p] else tree[p]
  }

  /** The checkout the gates leave, with the version files put back. */
  function Gated(plan: Plan, start: Files, left: Local): (r: Local)
    ensures r.head == left.head && r.tags == left.tags
    ensures forall p :: Get(r.files, p) == if p in PathsOf(plan.gateFiles) then Get(start, p) else Get(left.files, p)
  {
    var paths := PathsOf(plan.gateFiles);
    left.(files := map p | p in start.Keys + left.files.Keys && (if p in paths then p in start else p in left.files) ::
            if p in paths then start[p] else left.files[p])
  }

  lemma SameFiles(a: Files, b: Files)
    requires forall p :: Get(a, p) == Get(b, p)
    ensures a == b
  {
    forall p ensures p in a <==> p in b {
      assert Get(a, p) == Get(b, p);
    }
    forall p | p in a ensures a[p] == b[p] {
      assert Get(a, p) == Get(b, p);
    }
  }

  datatype Snapshot = Snapshot(local: Local, remote: Remote)

  // ----- the run

  class Release {
    const ignored: string -> bool
    var local: Local
    var remote: Remote
    /** The world after every command so far. */
    ghost var trace: seq<Snapshot>

    constructor (ignored: string -> bool, local: Local, remote: Remote)
      ensures this.ignored == ignored && this.local == local && this.remote == remote && trace == []
    {
      this.ignored, this.local, this.remote, trace := ignored, local, remote, [];
    }

    /** Since the method began nothing public has changed. */
    twostate predicate Private()
      reads this
    {
      && remote == old(remote)
      && old(trace) <= trace
      && forall k :: |old(trace)| <= k < |trace| ==> trace[k].remote == remote
    }

    method SetLocal(l: Local)
      modifies this
      ensures local == l && Private() && trace == old(trace) + [Snapshot(local, remote)]
    {
      local := l;
      trace := trace + [Snapshot(local, remote)];
    }

    method SetFile(path: string, content: Option<string>)
      modifies this
      ensures local == old(local).(files := Put(old(local.files), path, content)) && Private()
    {
      SetLocal(local.(files := Put(local.files, path, content)));
    }

    /** `Promise.all` over `writeFile`. */
    method WriteAll(files: seq<File>)
      modifies this
      ensures local == old(local).(files := Written(old(local.files), files)) && Private()
    {
      for n := 0 to |files|
        invariant local == old(local).(files := Written(old(local.files), files[..n])) && Private()
      {
        assert files[..n + 1][..n] == files[..n];
        SetFile(files[n].path, Some(files[n].content));
      }
      assert files[..|files|] == files;
    }

    /** The gates' `finally`: every gate file as it was read before. */
    method RestoreOriginals(files: seq<File>, originals: Files)
      modifies this
      ensures local == old(local).(files := local.files) && Private()
      ensures forall p ::
                Get(local.files, p) == if p in PathsOf(files) then Get(originals, p) else Get(old(local.files), p)
    {
      for n := 0 to |files|
        invariant local == old(local).(files := local.files) && Private()
        invariant forall p ::
                    Get(local.files, p) == if p in PathsOf(files[..n]) then Get(originals, p)
                    else Get(old(local.files), p)
      {
        assert files[..n + 1] == files[..n] + [files[n]];
        SetFile(files[n].path, Get(originals, files[n].path));
      }
      assert files[..|files|] == files;
    }

    /** `restoreBeforePush`: the tag deleted, `git reset --hard`, `git clean -fd`. */
    method RestoreBeforePush(originalHead: Commit, tag: string)
      modifies this
      ensures Private()
      ensures local.head == originalHead && local.tags == old(local.tags) - {tag}
      ensures Holds(ignored, local.files, originalHead, {})
      ensures forall p :: !IsVisible(ignored, originalHead, p) ==> Get(local.files, p) == Get(old(local.files), p)
    {
      if tag in local.tags {
        SetLocal(local.(tags := local.tags - {tag}));
      }
      assert local.tags == old(local.tags) - {tag};
      SetLocal(local.(head := originalHead, files := local.files + originalHead.files));
      SetLocal(local.(files := map p | p in local.files && (p in originalHead.files || ignored(p)) :: local.files[p]));
    }

    /** The three gates at the target version. `left` is the checkout as the last gate that ran left it. */
    method RunGates(plan: Plan, gates: seq<Gate>) returns (r: Option<GateFailure>, ghost left: Local)
      requires Holds(ignored, local.files, local.head, {})
      modifies this
      ensures Private()
      ensures GateRun(r, left) == GateResult(ignored, plan, gates, old(local))
      ensures r != Some(ChangedWorktree) ==> local.head == left.head && local.tags == left.tags
      ensures r != Some(ChangedWorktree) ==>
                forall p :: Get(local.files, p) == if p in PathsOf(plan.gateFiles) then Get(old(local.files), p)
                    else Get(left.files, p)
      ensures r != Some(ChangedWorktree) && r != Some(NotInspected) ==>
                Holds(ignored, left.files, left.head, PathsOf(plan.gateFiles))
      ensures r == Some(ChangedWorktree) ==>
                local.head == old(local.head) && local.tags == left.tags - {plan.tag}
                    && Holds(ignored, local.files, local.head, {})
    {
      var preGateHead, originals, paths := local.head, local.files, PathsOf(plan.gateFiles);
      WriteAll(plan.gateFiles);
      WrittenMeans(originals, plan.gateFiles);
      left := local;
      r := None;
      var n := 0;
      while n < |gates| && r.None?
        invariant n <= |gates| && Private()
        invariant r.None? ==> GateResult(ignored, plan, gates, old(local)) == GatesFrom(ignored, plan, gates[n..], left)
        invariant r.Some? ==> GateResult(ignored, plan, gates, old(local)) == GateRun(r, left)
        invariant r != Some(ChangedWorktree) ==> local == left
        invariant r != Some(ChangedWorktree) && r != Some(NotInspected) ==> Holds(ignored, left.files, left.head, paths)
        invariant r == Some(ChangedWorktree) ==>
                    local.head == old(local.head) && local.tags == left.tags - {plan.tag}
                        && Holds(ignored, local.files, local.head, {})
      {
        assert gates[n..][1..] == gates[n + 1..];
        SetLocal(gates[n].effect(local));
        left := local;
        CleanHolds(ignored, local, paths);
        r := Verdict(ignored, plan, gates[n], local);
        if r == Some(ChangedWorktree) {
          RestoreBeforePush(preGateHead, plan.tag);
        }
        n := n + 1;
      }
      RestoreOriginals(plan.gateFiles, originals);
    }

    /** `rm` of every pending fragment; one that is not there throws. */
    method DeletePending(paths: seq<string>) returns (ok: bool)
      modifies this
      ensures local == old(local).(files := local.files) && Private()
      ensures forall p :: p !in paths ==> Get(local.files, p) == Get(old(local.files), p)
      ensures ok <==> Distinct(paths) && forall p :: p in paths ==> p in old(local.files)
      ensures ok ==> local.files == old(local.files) - Members(paths)
    {
      for n := 0 to |paths|
        invariant local == old(local).(files := local.files) && Private()
        invariant local.files == old(local.files) - Members(paths[..n])
        invariant Distinct(paths[..n]) && forall p :: p in paths[..n] ==> p in old(local.files)
      {
        DistinctSnoc(paths, n);
        if paths[n] !in local.files {
          return false;
        }
        SetFile(paths[n], None);
      }
      assert paths[..|paths|] == paths;
      ok := true;
    }

    /** The worktree edits of the release commit: candidates, lockfile, deletions. */
    method EditFiles(plan: Plan, o: Outcomes) returns (ok: bool, lockfileChanged: bool)
      modifies this
      ensures local == old(local).(files := local.files) && Private()
      ensures ok <==> CanEdit(plan, o, old(local.files))
      ensures ok ==>
                local.files == Edited(plan, o, old(local.files))
                    && lockfileChanged == LockChanged(ignored, plan, o, old(local))
      ensures ok && Distinct(ReleasePaths(plan, lockfileChanged)) && lockfileChanged ==>
                o.install.Some? && Get(local.files, LOCKFILE) == o.install
      ensures ok ==> forall p :: p in Deleted(plan) ==> p !in local.files
      ensures ok && Distinct(ReleasePaths(plan, lockfileChanged))
                && (LOCKFILE in PathsOf(Edits(plan)) ==> lockfileChanged) ==>
                forall i :: 0 <= i < |Edits(plan)| ==>
                    Get(local.files, Edits(plan)[i].path) == Some(Edits(plan)[i].content)
      ensures ok && Distinct(ReleasePaths(plan, lockfileChanged)) && !lockfileChanged
              && LOCKFILE in PathsOf(Edits(plan)) && IsVisible(ignored, local.head, LOCKFILE) ==>
                Get(local.files, LOCKFILE) == Get(local.head.files, LOCKFILE)
    {
      ok, lockfileChanged := false, false;
      WriteAll(Edits(plan));
      WrittenMeans(old(local.files), Edits(plan));
      if LOCKFILE in local.files {
        if o.install.None? {
          return;
        }
        SetFile(LOCKFILE, o.install);
        if !o.lockStatusOk {
          return;
        }
        lockfileChanged := IsVisible(ignored, local.head, LOCKFILE)
            && Get(local.files, LOCKFILE) != Get(local.head.files, LOCKFILE);
      }
      ok := DeletePending(Deleted(plan));
      if ok && Distinct(ReleasePaths(plan, lockfileChanged)) {
        PathsDistinct(plan, lockfileChanged);
      }
    }

    /** `git diff --check`, `git add`, the comparison of what is staged, and `git commit`. `git add`
        refuses ignored paths; only a path that differs from HEAD is staged. */
    method StageAndCommit(o: Outcomes, paths: seq<string>) returns (ok: bool)
      modifies this
      ensures Private()
      ensures !ok ==> local == old(local)
      ensures ok <==> CanCommit(ignored, o, old(local.head), old(local.files), paths)
      ensures ok ==>
                && Distinct(paths)
                && forall p :: p in paths ==>
                     IsVisible(ignored, old(local.head), p) && Get(old(local.files), p) != Get(old(local.head.files), p)
      ensures ok ==>
                && local.head == Child(old(local.head), Overlay(old(local.head.files), old(local.files), paths))
                && local == old(local).(head := local.head)
    {
      hide Overlay;
      if !o.diffOk || !o.addOk || exists p :: p in paths && !IsVisible(ignored, local.head, p) {
        return false;
      }
      if !o.stagedOk || !Distinct(paths) || paths == []
          || exists p :: p in paths && Get(local.files, p) == Get(local.head.files, p) {
        return false;
      }
      if !o.commitOk {
        return false;
      }
      SetLocal(local.(head := Child(local.head, Overlay(local.head.files, local.files, paths))));
      ok := true;
    }

    /** From the edits to a release commit under its tag, smoked from a local clone. */
    method Prepare(plan: Plan, o: Outcomes) returns (ok: bool, ghost lockfileChanged: bool)
      modifies this
      ensures Private() && local.tags - {plan.tag} == old(local.tags) - {plan.tag}
      ensures ok <==> CanPrepare(ignored, plan, o, old(local))
      ensures ok ==>
                && local.head.Child? && local.head.parent == old(local.head)
                && local.tags == old(local.tags)[plan.tag := local.head]
                && IsReleaseTree(plan, o.install, lockfileChanged, old(local.head.files), local.head.files)
    {
      hide ReleasePaths, Edits, Deleted, PathsOf, IsReleaseTree, Overlay, IsVisible, Get, Distinct;
      hide CanEdit, CanCommit, Edited, LockChanged;
      var changed;
      ok, changed := EditFiles(plan, o);
      lockfileChanged := changed;
      if !ok {
        return;
      }
      ghost var edited := local.files;
      var paths := ReleasePaths(plan, changed);
      if LOCKFILE in PathsOf(Edits(plan)) {
        LockfileReleased(plan, changed);
      }
      ok := StageAndCommit(o, paths);
      if !ok {
        return;
      }
      ReleaseTree(plan, o.install, changed, old(local.head.files), edited, local.head.files);
      if !o.tagOk {
        return false, changed;
      }
      SetLocal(local.(tags := local.tags[plan.tag := local.head]));
      ok := o.resolveOk && o.smokeOk;
    }

    method Push(plan: Plan) returns (ghost pushedAt: nat)
      modifies this
      ensures old(trace) <= trace && pushedAt == |trace| - 1 == |old(trace)|
                && trace[pushedAt] == Snapshot(local, remote)
      ensures local == old(local)
                && remote == old(remote).(branch := local.head, tags := old(remote.tags)[plan.tag := local.head])
    {
      pushedAt := |trace|;
      remote := remote.(branch := local.head, tags := remote.tags[plan.tag := local.head]);
      trace := trace + [Snapshot(local, remote)];
    }

    /** The stage up to the push, with its `catch`. `originals` are the files before the gates. */
    method PrepareAndPush(plan: Plan, o: Outcomes, originals: Files)
      returns (pushed: bool, ghost lockfileChanged: bool, ghost pushedAt: nat)
      modifies this
      ensures old(trace) <= trace && |old(trace)| <= pushedAt <= |trace|
      ensures pushed <==> CanPrepare(ignored, plan, o, old(local)) && o.pushOk
      ensures !pushed ==> Private() && pushedAt == |trace| && IsRestored(plan, old(local), originals, ignored, local)
      ensures pushed ==>
                && local.head.Child? && local.head.parent == old(local.head)
                && IsReleaseTree(plan, o.install, lockfileChanged, old(local.head.files), local.head.files)
                && pushedAt == |trace| - 1 && trace[pushedAt] == Snapshot(local, remote)
                && (forall k :: |old(trace)| <= k < pushedAt ==> trace[k].remote == old(remote))
                && local.tags == old(local.tags)[plan.tag := local.head]
                && remote == old(remote).(branch := local.head, tags := old(remote.tags)[plan.tag := local.head])
    {
      hide IsReleaseTree, Holds, Get, PathsOf, IsRestored, CanPrepare;
      ghost var before := local;
      var originalHead := local.head;
      pushed, lockfileChanged := Prepare(plan, o);
      if pushed && o.pushOk {
        pushedAt := Push(plan);
        return;
      }
      pushed := false;
      RestoreBeforePush(originalHead, plan.tag);
      ghost var reset := local;
      RemoveAdded(plan.gateFiles, originals);
      RestoredAfter(plan, before, originals, ignored, reset, local);
      pushedAt := |trace|;
    }

    method RemoveAdded(files: seq<File>, originals: Files)
      modifies this
      ensures local == old(local).(files := local.files) && Private()
      ensures forall p ::
                Get(local.files, p) == if p in PathsOf(files) && p !in originals then None else Get(old(local.files), p)
    {
      for n := 0 to |files|
        invariant local == old(local).(files := local.files) && Private()
        invariant forall p ::
                    Get(local.files, p) == if p in PathsOf(files[..n]) && p !in originals then None
                    else Get(old(local.files), p)
      {
        assert files[..n + 1] == files[..n] + [files[n]];
        if files[n].path !in originals {
          SetFile(files[n].path, None);
        }
      }
      assert files[..|files|] == files;
    }

    /** Since the method began only what is published has changed, and in order. */
    twostate predicate OnlyPublished(plan: Plan)
      reads this
    {
      && local == old(local)
      && remote.branch == old(remote.branch) && remote.tags == old(remote.tags)
      && old(trace) <= trace
      && forall k :: |old(trace)| <= k < |trace| ==>
           && trace[k].local == local
           && trace[k].remote.branch == remote.branch && trace[k].remote.tags == remote.tags
           && InOrder(plan, trace[k].remote)
    }

    method SetRemote(plan: Plan, release: Option<string>, archive: bool, published: seq<PublishOrder.Package>)
      requires InOrder(plan, remote.(release := release, archive := archive, published := published))
      modifies this
      ensures OnlyPublished(plan)
                && remote == old(remote).(release := release, archive := archive, published := published)
                && trace == old(trace) + [Snapshot(local, remote)]
    {
      remote := remote.(release := release, archive := archive, published := published);
      trace := trace + [Snapshot(local, remote)];
    }

    /** `publishPackages`: in order, stopping at the first refusal with what is still unpublished. */
    method PublishPackages(plan: Plan, publishOk: nat -> bool) returns (remaining: seq<PublishOrder.Package>)
      requires remote.published == [] && remote.archive && remote.release == Some(plan.notes)
      modifies this
      ensures OnlyPublished(plan) && remote == old(remote).(published := remote.published)
      ensures remote.published + remaining == plan.packages
      ensures forall i :: 0 <= i < |remote.published| ==> publishOk(i)
      ensures remaining != [] ==> !publishOk(|remote.published|)
    {
      var i := 0;
      while i < |plan.packages| && publishOk(i)
        invariant i <= |plan.packages| && OnlyPublished(plan)
        invariant remote == old(remote).(published := plan.packages[..i])
        invariant forall j :: 0 <= j < i ==> publishOk(j)
      {
        SetRemote(plan, remote.release, remote.archive, plan.packages[..i + 1]);
        i := i + 1;
      }
      remaining := plan.packages[i..];
    }

    /** Everything after the push. */
    method AfterPush(plan: Plan, o: Outcomes) returns (r: Result<Done, Failure>)
      requires remote.release.None? && !remote.archive && remote.published == []
      modifies this
      ensures OnlyPublished(plan) && InOrder(plan, remote)
      ensures AfterPushResult(plan, o, ignored, local, remote, r)
    {
      if !o.canonicalOk {
        return Err(CanonicalSmoke);
      }
      if !o.releaseOk {
        return Err(NoRelease);
      }
      SetRemote(plan, Some(plan.notes), false, []);
      if !o.archiveOk {
        return Err(NoArchive);
      }
      SetRemote(plan, Some(plan.notes), true, []);
      var remaining := PublishPackages(plan, o.publishOk);
      assert remote.published <= plan.packages && remaining == plan.packages[|remote.published|..];
      if remaining != [] {
        return Err(Unpublished(remaining));
      }
      return if o.statusOk && IsClean(ignored, local, {}) then Ok(Released) else Err(DirtyAfter);
    }

    /** The whole release. `left` is the checkout as the last gate left it; `pushedAt` the position of
        the push in the trace, when there was one.

        Nothing public changes before the push. After it the checkout and the refs stay as pushed, and
        what is published grows in order. A run that ends before the push ends as `WithoutPush` says,
        with the checkout as it was found exactly when the gates left alone what is not put back
        (`SameIffLeftAlone`). */
    method Run(plan: Plan, o: Outcomes)
      returns (r: Result<Done, Failure>, ghost left: Local, ghost pushedAt: Option<nat>, ghost lockfileChanged: bool)
      requires remote.release.None? && !remote.archive && remote.published == []
      modifies this
      ensures old(trace) <= trace
      // before the push
      ensures forall k :: |old(trace)| <= k < |trace| && (pushedAt.Some? ==> k < pushedAt.value) ==>
                trace[k].remote == old(remote)
      ensures pushedAt.None? ==> remote == old(remote)
      ensures left == if r == Err(Preflight) then old(local) else GateResult(ignored, plan, o.gates, old(local)).left
      // without a push
      ensures pushedAt.None? ==> WithoutPush(ignored, plan, o, old(local), old(remote), left, r, local)
      // with a push
      ensures pushedAt.Some? ==>
                && |old(trace)| <= pushedAt.value < |trace|
                && (forall k :: pushedAt.value <= k < |trace| ==> IsPublic(plan, old(remote), local, trace[k]))
                && IsPublic(plan, old(remote), local, Snapshot(local, remote))
                && IsReleaseCommit(plan, o, lockfileChanged, left, local)
      ensures pushedAt.Some? ==> AfterPushResult(plan, o, ignored, local, remote, r)
      // which of the two
      ensures pushedAt.Some? <==>
                && MayRelease(ignored, plan, o, old(local), old(remote))
                     && GatesPass(ignored, plan, o.gates, old(local))
                && o.datedOk && !plan.dryRun && o.headOk
                && CanPrepare(ignored, plan, o, Gated(plan, old(local.files), left)) && o.pushOk
    {
      hide IsPublic, WithoutPush, AfterPushResult, InOrder, IsReady, GateResult, IsReleaseTree, CanPrepare, Gated;
      hide MayRelease, GatesPass;
      ReadyIff(plan, o, ignored, local, remote);
      PassedIff(ignored, plan, o.gates, local);
      var stop;
      ghost var at;
      stop, left, at, lockfileChanged := UntilPush(plan, o);
      if stop.Some? {
        return stop.value, left, None, lockfileChanged;
      }
      pushedAt := Some(at);
      ghost var before, pushed := old(remote), local;
      ghost var early := trace;
      r := AfterPush(plan, o);
      Published(plan, before, pushed, early, at, trace, local, remote);
    }

    /** The release up to and including the push; `stop` is how it ends if it does not get that far. */
    method UntilPush(plan: Plan, o: Outcomes)
      returns (stop: Option<Result<Done, Failure>>, ghost left: Local, ghost pushedAt: nat, ghost lockfileChanged: bool)
      modifies this
      ensures old(trace) <= trace
      ensures stop.Some? ==> stop.value.Err? || stop.value == Ok(DryRun)
      ensures forall k :: |old(trace)| <= k < |trace| && (stop.None? ==> k < pushedAt) ==>
                trace[k].remote == old(remote)
      ensures left == if stop == Some(Err(Preflight)) then old(local)
                else GateResult(ignored, plan, o.gates, old(local)).left
      ensures stop.Some? ==>
                remote == old(remote) && WithoutPush(ignored, plan, o, old(local), old(remote), left, stop.value, local)
      ensures stop.None? <==> Pushes(ignored, plan, o, old(local), old(remote), left)
      ensures stop.None? ==>
                && IsReady(plan, o, ignored, old(local), old(remote)) && !plan.dryRun
                && |old(trace)| <= pushedAt == |trace| - 1 && trace[pushedAt] == Snapshot(local, remote)
                && IsReleaseCommit(plan, o, lockfileChanged, left, local)
                && remote == old(remote).(branch := local.head, tags := old(remote.tags)[plan.tag := local.head])
    {
      hide IsReleaseTree, IsReady, IsRestored, PathsOf, GateResult, Holds, IsVisible, Get, CanPrepare, Gated;
      ghost var start := local;
      left, pushedAt, lockfileChanged := local, 0, false;
      if !IsReady(plan, o, ignored, local, remote) {
        return Some(Err(Preflight)), left, pushedAt, lockfileChanged;
      }
      ReadyMeans(plan, o, ignored, local, remote);
      var originals := local.files;
      var failure;
      failure, left := RunGates(plan, o.gates);
      ghost var gated := local;
      if failure.Some? {
        stop := Some(Err(AtGates(failure.value)));
        return;
      }
      if !o.datedOk {
        stop := Some(Err(Undated));
        return;
      }
      if plan.dryRun {
        stop := Some(Ok(DryRun));
        return;
      }
      stop := Some(Err(BeforePush));
      if !o.headOk {
        return;
      }
      SameFiles(local.files, Gated(plan, start.files, left).files);
      var pushed;
      pushed, lockfileChanged, pushedAt := PrepareAndPush(plan, o, originals);
      if pushed {
        stop := None;
        return;
      }
      RestoredFrom(plan, gated, left, originals, ignored, local);
    }
  }

  /** How a run that never pushed ends: preflight failures are exactly the runs that were not ready,
      gate failures exactly the gates' own. */
  ghost predicate WithoutPush(ignored: string -> bool, plan: Plan, o: Outcomes, start: Local, remote: Remote,
                              left: Local,
                              r: Result<Done, Failure>, end: Local)
  {
    && (r == Ok(DryRun)
         || (r.Err? && (r.error.Preflight? || r.error.AtGates? || r.error.Undated? || r.error.BeforePush?)))
    && (r == Err(Preflight) <==> !IsReady(plan, o, ignored, start, remote))
    && (forall f :: r == Err(AtGates(f))
         <==> r != Err(Preflight) && GateResult(ignored, plan, o.gates, start).failure == Some(f))
    && (r == Err(Undated) <==> IsGated(ignored, plan, o, start, remote) && !o.datedOk)
    && (r == Ok(DryRun) <==> IsGated(ignored, plan, o, start, remote) && o.datedOk && plan.dryRun)
    && EndsAs(ignored, plan, o, start, left, r, end)
  }

  /** The run was ready, and its gates passed. */
  ghost predicate IsGated(ignored: string -> bool, plan: Plan, o: Outcomes, start: Local, remote: Remote) {
    IsReady(plan, o, ignored, start, remote) && GateResult(ignored, plan, o.gates, start).failure.None?
  }

  /** Everything that a push needs has gone well. */
  ghost predicate Pushes(ignored: string -> bool, plan: Plan, o: Outcomes, start: Local, remote: Remote, left: Local) {
    && IsGated(ignored, plan, o, start, remote) && o.datedOk && !plan.dryRun && o.headOk
    && CanPrepare(ignored, plan, o, Gated(plan, start.files, left)) && o.pushOk
  }

  /** The restoration ran: the run had begun to edit the release's files. */
  predicate HadBegun(o: Outcomes, r: Result<Done, Failure>) { r == Err(BeforePush) && o.headOk }

  /** The checkout that such a run leaves: untouched by a preflight failure, back on its HEAD when a
      gate changed the worktree, restored onto what the gates left once editing had begun, and
      otherwise what the gates left with the version files put back. */
  ghost predicate EndsAs(ignored: string -> bool, plan: Plan, o: Outcomes, start: Local, left: Local,
                         r: Result<Done, Failure>, end: Local)
  {
    if r == Err(Preflight) then end == start
    else if r == Err(AtGates(ChangedWorktree)) then
      end.head == start.head && end.tags == left.tags - {plan.tag} && Holds(ignored, end.files, end.head, {})
    else if HadBegun(o, r) then IsRestored(plan, left, start.files, ignored, end)
    else
      && end.head == left.head && end.tags == left.tags
      && (forall p :: Get(end.files, p) == if p in PathsOf(plan.gateFiles) then Get(start.files, p)
           else Get(left.files, p))
      && (r != Err(AtGates(NotInspected)) ==> Holds(ignored, left.files, left.head, PathsOf(plan.gateFiles)))
  }

  /** What the gates must have left alone for such a run to end with the checkout as it was found. The
      tag to come may be there when the restoration deletes it, HEAD is put back with what a gate
      changed, and other files matter only when no one could look at them. */
  ghost predicate LeftAlone(ignored: string -> bool, plan: Plan, o: Outcomes, start: Local, left: Local,
                            r: Result<Done, Failure>)
  {
    if r == Err(Preflight) then true
    else if r == Err(AtGates(ChangedWorktree)) then left.tags - {plan.tag} == start.tags
    else if HadBegun(o, r) then left.head == start.head && left.tags - {plan.tag} == start.tags
    else
      && left.head == start.head && left.tags == start.tags
      && (r == Err(AtGates(NotInspected)) ==>
            forall p :: IsVisible(ignored, start.head, p) && p !in PathsOf(plan.gateFiles) ==>
                Get(left.files, p) == Get(start.files, p))
  }

  /** However a run ends that never pushed, the checkout is as it was found exactly when the gates left
      that alone. */
  lemma SameIffLeftAlone(ignored: string -> bool, plan: Plan, o: Outcomes, start: Local, remote: Remote, left: Local,
                         r: Result<Done, Failure>, end: Local)
    requires WithoutPush(ignored, plan, o, start, remote, left, r, end)
    ensures Same(ignored, end, start) <==> LeftAlone(ignored, plan, o, start, left, r)
  {
    hide GateResult, IsReady, PathsOf, IsVisible, Get, IsRestored, Same;
    if r == Err(Preflight) {
      IsSame(ignored, start);
    } else {
      ReadyMeans(plan, o, ignored, start, remote);
      if r == Err(AtGates(ChangedWorktree)) {
        HeldSameIff(ignored, start, end);
      } else if HadBegun(o, r) {
        RestoredSameIff(ignored, plan, start, left, end);
      } else if r == Err(AtGates(NotInspected)) {
        UninspectedSameIff(ignored, plan, start, left, end);
      } else {
        GatedSameIff(ignored, plan, start, left, end);
      }
    }
  }

  /** One commit on what the gates left, tagged, holding exactly the release's changes. */
  ghost predicate IsReleaseCommit(plan: Plan, o: Outcomes, lockfileChanged: bool, left: Local, end: Local) {
    && end.head.Child? && end.head.parent == left.head
    && end.tags == left.tags[plan.tag := end.head]
    && IsReleaseTree(plan, o.install, lockfileChanged, left.head.files, end.head.files)
  }

  /** How the stage after the push ends, and what is published by then. */
  ghost predicate AfterPushResult(plan: Plan, o: Outcomes, ignored: string -> bool, local: Local, remote: Remote,
                                  r: Result<Done, Failure>)
  {
    && (r == Err(CanonicalSmoke) <==> !o.canonicalOk)
    && (r == Err(NoRelease) <==> o.canonicalOk && !o.releaseOk)
    && (r == Err(NoArchive) <==> o.canonicalOk && o.releaseOk && !o.archiveOk)
    && (remote.release == Some(plan.notes) <==> o.canonicalOk && o.releaseOk)
    && (remote.archive <==> o.canonicalOk && o.releaseOk && o.archiveOk)
    && (forall i :: 0 <= i < |remote.published| ==> o.publishOk(i))
    && remote.published <= plan.packages
    && (remote.archive && remote.published != plan.packages ==>
          !o.publishOk(|remote.published|) && r == Err(Unpublished(plan.packages[|remote.published|..])))
    && (remote.archive && remote.published == plan.packages ==>
          r == if o.statusOk && IsClean(ignored, local, {}) then Ok(Released) else Err(DirtyAfter))
  }

  lemma Published(plan: Plan, before: Remote, pushed: Local, early: seq<Snapshot>, at: nat, trace: seq<Snapshot>,
                  local: Local, remote: Remote)
    requires at == |early| - 1 && early <= trace && local == pushed
    requires before.release.None? && !before.archive && before.published == []
    requires plan.tag in pushed.tags && pushed.tags[plan.tag] == pushed.head
    requires early[at] == Snapshot(pushed, before.(branch := pushed.head, tags := before.tags[plan.tag := pushed.head]))
    requires remote.branch == early[at].remote.branch && remote.tags == early[at].remote.tags && InOrder(plan, remote)
    requires forall k :: |early| <= k < |trace| ==>
               trace[k].local == local && trace[k].remote.branch == remote.branch && trace[k].remote.tags == remote.tags
                   && InOrder(plan, trace[k].remote)
    ensures forall k :: at <= k < |trace| ==> IsPublic(plan, before, pushed, trace[k])
    ensures IsPublic(plan, before, pushed, Snapshot(local, remote))
  {
    assert trace[at] == early[at];
  }

  /** Everything that is asked before the gates has the answer a release needs. */
  predicate IsReady(plan: Plan, o: Outcomes, ignored: string -> bool, local: Local, remote: Remote) {
    && o.checks
    && plan.packages != []
    && IsClean(ignored, local, {})
    && plan.tag !in local.tags && plan.tag !in remote.tags
    && IsAncestor(remote.branch, local.head)
  }

  /** The `k`th parent. */
  function Back(c: Commit, k: nat): Option<Commit> {
    if k == 0 then Some(c) else if c.Child? then Back(c.parent, k - 1) else None
  }

  ghost predicate ComesAfter(c: Commit, earlier: Commit) {
    exists k: nat :: Back(c, k) == Some(earlier)
  }

  /** What a release needs before anything is done: every question has the right answer, there is
      something to publish, Git sees no change, the tag is new here and there, and HEAD is the remote's
      branch or comes after it. */
  ghost predicate MayRelease(ignored: string -> bool, plan: Plan, o: Outcomes, start: Local, remote: Remote) {
    && o.checks && plan.packages != []
    && (forall p :: IsVisible(ignored, start.head, p) ==> Get(start.files, p) == Get(start.head.files, p))
    && plan.tag !in start.tags && plan.tag !in remote.tags
    && ComesAfter(start.head, remote.branch)
  }

  lemma {:induction false} BackIsAncestor(a: Commit, b: Commit, k: nat)
    requires Back(b, k) == Some(a)
    ensures IsAncestor(a, b)
    decreases k
  {
    if k > 0 {
      BackIsAncestor(a, b.parent, k - 1);
    }
  }

  lemma {:induction false} AncestorIsBack(a: Commit, b: Commit) returns (k: nat)
    requires IsAncestor(a, b)
    ensures Back(b, k) == Some(a)
    decreases b
  {
    if a == b {
      k := 0;
    } else {
      k := AncestorIsBack(a, b.parent);
      k := k + 1;
    }
  }

  lemma AncestorIff(a: Commit, b: Commit)
    ensures IsAncestor(a, b) <==> ComesAfter(b, a)
  {
    if IsAncestor(a, b) {
      var k := AncestorIsBack(a, b);
    }
    if k: nat :| Back(b, k) == Some(a) {
      BackIsAncestor(a, b, k);
    }
  }

  lemma ReadyIff(plan: Plan, o: Outcomes, ignored: string -> bool, start: Local, remote: Remote)
    ensures IsReady(plan, o, ignored, start, remote) <==> MayRelease(ignored, plan, o, start, remote)
  {
    CleanHolds(ignored, start, {});
    AncestorIff(remote.branch, start.head);
    hide IsVisible, Get, IsClean, ComesAfter, IsAncestor;
    assert Holds(ignored, start.files, start.head, {}) <==>
        forall p :: IsVisible(ignored, start.head, p) ==> Get(start.files, p) == Get(start.head.files, p);
  }

  /** Every gate passes, one after another, at the target version. */
  ghost predicate GatesPass(ignored: string -> bool, plan: Plan, gates: seq<Gate>, start: Local) {
    var written := start.(files := Written(start.files, plan.gateFiles));
    forall n :: 0 <= n < |gates| ==> HasPassed(ignored, plan, gates[n], AfterGates(gates, written, n + 1))
  }

  lemma PassedIff(ignored: string -> bool, plan: Plan, gates: seq<Gate>, start: Local)
    ensures GateResult(ignored, plan, gates, start).failure.None? <==> GatesPass(ignored, plan, gates, start)
  {
    hide HasPassed, GatesFrom;
    var written := start.(files := Written(start.files, plan.gateFiles));
    GatesMean(ignored, plan, gates, written);
    var run := GatesFrom(ignored, plan, gates, written);
    if run.failure.Some? {
      var n: nat :| FailsFirst(ignored, plan, gates, written, n, run.failure.value);
      FailsNotPassed(ignored, plan, gates, written, n, run.failure.value);
    }
  }

  lemma FailsNotPassed(ignored: string -> bool, plan: Plan, gates: seq<Gate>, l: Local, n: nat, f: GateFailure)
    requires FailsFirst(ignored, plan, gates, l, n, f)
    ensures n < |gates| && !HasPassed(ignored, plan, gates[n], AfterGates(gates, l, n + 1))
  {
    hide Holds, AfterGates;
    var after := AfterGates(gates, l, n + 1);
    assert forall v :: v in plan.gateFiles && v.path !in after.files ==> Get(after.files, v.path) == None;
  }

  lemma ReadyMeans(plan: Plan, o: Outcomes, ignored: string -> bool, local: Local, remote: Remote)
    requires IsReady(plan, o, ignored, local, remote)
    ensures Holds(ignored, local.files, local.head, {}) && plan.tag !in local.tags
  {
    CleanHolds(ignored, local, {});
  }

  lemma GatedSameIff(ignored: string -> bool, plan: Plan, start: Local, left: Local, end: Local)
    requires Holds(ignored, start.files, start.head, {})
               && Holds(ignored, left.files, left.head, PathsOf(plan.gateFiles))
    requires end.head == left.head && end.tags == left.tags
    requires forall p ::
               Get(end.files, p) == if p in PathsOf(plan.gateFiles) then Get(start.files, p) else Get(left.files, p)
    ensures Same(ignored, end, start) <==> left.head == start.head && left.tags == start.tags
  {
    hide PathsOf, IsVisible, Get;
  }

  lemma HeldSameIff(ignored: string -> bool, start: Local, end: Local)
    requires Holds(ignored, start.files, start.head, {}) && Holds(ignored, end.files, end.head, {})
    requires end.head == start.head
    ensures Same(ignored, end, start) <==> end.tags == start.tags
  {
    hide IsVisible, Get;
  }

  lemma RestoredSameIff(ignored: string -> bool, plan: Plan, start: Local, left: Local, end: Local)
    requires Holds(ignored, start.files, start.head, {}) && IsRestored(plan, left, start.files, ignored, end)
    ensures Same(ignored, end, start) <==> left.head == start.head && left.tags - {plan.tag} == start.tags
  {
    hide PathsOf;
    if left.head == start.head {
      forall p | IsVisible(ignored, start.head, p) ensures Get(end.files, p) == Get(start.files, p) {
        if p in PathsOf(plan.gateFiles) - start.files.Keys {
          assert p !in end.files;
        }
      }
    }
  }

  /** Where a gate's effect could not be inspected, what it did outside the version files stays. */
  lemma UninspectedSameIff(ignored: string -> bool, plan: Plan, start: Local, left: Local, end: Local)
    requires end.head == left.head && end.tags == left.tags
    requires forall p ::
               Get(end.files, p) == if p in PathsOf(plan.gateFiles) then Get(start.files, p) else Get(left.files, p)
    ensures Same(ignored, end, start) <==>
              && left.head == start.head && left.tags == start.tags
              && forall p :: IsVisible(ignored, start.head, p) && p !in PathsOf(plan.gateFiles) ==>
                   Get(left.files, p) == Get(start.files, p)
  {
    hide PathsOf, IsVisible, Get;
    if Same(ignored, end, start) {
      forall p | IsVisible(ignored, start.head, p) && p !in PathsOf(plan.gateFiles)
        ensures Get(left.files, p) == Get(start.files, p)
      {
        assert Get(end.files, p) == Get(left.files, p);
      }
    }
  }

  /** HEAD and tags as before, the worktree on HEAD's tree, and the version files that were not there
      before the gates gone again. */
  ghost predicate IsRestored(plan: Plan, before: Local, originals: Files, ignored: string -> bool, after: Local) {
    && after.head == before.head
    && after.tags == before.tags - {plan.tag}
    && Holds(ignored, after.files, after.head, PathsOf(plan.gateFiles) - originals.Keys)
    && forall p :: p in PathsOf(plan.gateFiles) && p !in originals ==> p !in after.files
  }

  lemma RestoredFrom(plan: Plan, before: Local, left: Local, originals: Files, ignored: string -> bool, after: Local)
    requires IsRestored(plan, before, originals, ignored, after) && before.head == left.head && before.tags == left.tags
    ensures IsRestored(plan, left, originals, ignored, after)
  {}

  lemma IsSame(ignored: string -> bool, l: Local)
    ensures Same(ignored, l, l)
  {}

  lemma RestoredAfter(plan: Plan, before: Local, originals: Files, ignored: string -> bool, reset: Local, after: Local)
    requires reset.head == before.head == after.head && after.tags == reset.tags == before.tags - {plan.tag}
    requires Holds(ignored, reset.files, before.head, {})
    requires forall p ::
               Get(after.files, p) == if p in PathsOf(plan.gateFiles) && p !in originals then None
               else Get(reset.files, p)
    ensures IsRestored(plan, before, originals, ignored, after)
  {
    hide PathsOf, IsVisible;
    forall p | p in PathsOf(plan.gateFiles) && p !in originals ensures p !in after.files {
      assert Get(after.files, p) == None;
    }
  }

  lemma LockfileReleased(plan: Plan, lockfileChanged: bool)
    requires LOCKFILE in PathsOf(Edits(plan))
    ensures LOCKFILE in ReleasePaths(plan, lockfileChanged)
  {
    hide Edits;
    var f :| f in Edits(plan) && f.path == LOCKFILE;
    EditIsReleased(plan, lockfileChanged, f);
  }

  lemma ReleaseTree(plan: Plan, lockfile: Option<string>, lockfileChanged: bool, before: Files, files: Files,
                    after: Files)
    requires var paths := ReleasePaths(plan, lockfileChanged);
             && Distinct(paths)
             && after == Overlay(before, files, paths)
             && (forall p :: p in paths ==> Get(files, p) != Get(before, p))
             && (lockfileChanged ==> lockfile.Some? && Get(files, LOCKFILE) == lockfile)
             && (!lockfileChanged && LOCKFILE in PathsOf(Edits(plan)) ==> Get(files, LOCKFILE) == Get(before, LOCKFILE))
             && (forall p :: p in Deleted(plan) ==> p !in files)
             && ((LOCKFILE in PathsOf(Edits(plan)) ==> lockfileChanged) ==>
                  forall i :: 0 <= i < |Edits(plan)| ==>
                      Get(files, Edits(plan)[i].path) == Some(Edits(plan)[i].content))
    ensures IsReleaseTree(plan, lockfile, lockfileChanged, before, after)
  {
    hide Overlay, Get, ReleasePaths, IsReleased;
    var paths := ReleasePaths(plan, lockfileChanged);
    forall p ensures p in paths <==> IsReleased(plan, lockfileChanged, p) {
      ReleasedIff(plan, lockfileChanged, p);
    }
    NamesReleased(plan, lockfileChanged);
    if LOCKFILE in PathsOf(Edits(plan)) {
      LockfileReleased(plan, lockfileChanged);
    }
    forall f | f in Edits(plan) ensures Get(after, f.path) == Some(f.content) {
      EditIsReleased(plan, lockfileChanged, f);
      var i :| 0 <= i < |Edits(plan)| && Edits(plan)[i] == f;
    }
    assert !plan.prerelease ==> plan.changelog in Edits(plan);
    forall p | p in Deleted(plan) ensures p !in after {
      DeletedIsReleased(plan, lockfileChanged, p);
      assert Get(after, p) == Get(files, p);
      GetIn(after, files, p);
    }
  }

  lemma GetIn(a: Files, b: Files, p: string)
    requires Get(a, p) == Get(b, p) && p !in b
    ensures p !in a
  {}

  lemma EditIsReleased(plan: Plan, lockfileChanged: bool, f: File)
    requires f in Edits(plan)
    ensures f.path in ReleasePaths(plan, lockfileChanged)
  {
    var edits := Edits(plan);
    var i :| 0 <= i < |edits| && edits[i] == f;
    assert ReleasePaths(plan, lockfileChanged)[|Deleted(plan)| + i] == f.path;
  }

  lemma NamesReleased(plan: Plan, lockfileChanged: bool)
    ensures lockfileChanged ==> IsReleased(plan, lockfileChanged, LOCKFILE)
  {}

  lemma ReleasedIff(plan: Plan, lockfileChanged: bool, p: string)
    ensures p in ReleasePaths(plan, lockfileChanged) <==> IsReleased(plan, lockfileChanged, p)
  {
    var paths, edits := ReleasePaths(plan, lockfileChanged), Edits(plan);
    if p in paths {
      var i :| 0 <= i < |paths| && paths[i] == p;
      var k := i - |Deleted(plan)|;
      assert 0 <= k < |edits| ==> p == edits[k].path && edits[k] in edits;
    }
    if IsReleased(plan, lockfileChanged, p) {
      if f :| f in edits && f.path == p {
        EditIsReleased(plan, lockfileChanged, f);
      } else if p in Deleted(plan) {
        DeletedIsReleased(plan, lockfileChanged, p);
      } else {
        assert lockfileChanged && p == LOCKFILE && paths[|paths| - 1] == LOCKFILE;
      }
    }
  }

  lemma DeletedIsReleased(plan: Plan, lockfileChanged: bool, p: string)
    requires p in Deleted(plan)
    ensures p in ReleasePaths(plan, lockfileChanged)
  {
    var i :| 0 <= i < |Deleted(plan)| && Deleted(plan)[i] == p;
    assert ReleasePaths(plan, lockfileChanged)[i] == p;
  }

  /** The public refs point at the release commit, and what was published is what a run may have
      published by then: no archive before the release, no package before the archive, and packages
      only in dependency order. */
  ghost predicate IsPublic(plan: Plan, before: Remote, pushed: Local, s: Snapshot) {
    && s.local == pushed
    && plan.tag in pushed.tags && pushed.tags[plan.tag] == pushed.head
    && s.remote.branch == pushed.head
    && s.remote.tags == before.tags[plan.tag := pushed.head]
    && InOrder(plan, s.remote)
  }

  ghost predicate InOrder(plan: Plan, remote: Remote) {
    && (remote.release.Some? ==> remote.release == Some(plan.notes))
    && (remote.archive ==> remote.release.Some?)
    && (remote.published != [] ==> remote.archive)
    && remote.published <= plan.packages
  }

  /** When the packages are those of `publishablePackages`, then at every moment of a run each package
      published so far is one of the candidates, all before it in the order are published, and so is
      every candidate that it depends on. */
  lemma PublishedAfterDependencies(ms: seq<PublishOrder.Manifest>, plan: Plan, remote: Remote)
    returns (order: seq<LayeredOrder.Item>)
    requires PublishOrder.Publishable(ms) == Ok(plan.packages) && InOrder(plan, remote)
    ensures PublishOrder.Candidates(ms).Ok? && multiset(order) == multiset(PublishOrder.Candidates(ms).value)
    ensures |remote.published| <= |order| && remote.published == PublishOrder.Packages(order[..|remote.published|])
    ensures forall i, x ::
              0 <= i < |remote.published| && x in PublishOrder.Candidates(ms).value && x.name in order[i].dependsOn ==>
              x in order[..i]
  {
    order := PublishOrder.PublishesInDependencyOrder(ms);
    forall i, x | 0 <= i < |remote.published| && x in PublishOrder.Candidates(ms).value && x.name in order[i].dependsOn
      ensures x in order[..i]
    {
      assert x in multiset(order);
      var j :| 0 <= j < |order| && order[j] == x;
      assert order[..i][j] == x;
    }
  }

  lemma PathsDistinct(plan: Plan, lockfileChanged: bool)
    requires Distinct(ReleasePaths(plan, lockfileChanged))
    ensures forall i, j :: 0 <= i < j < |Edits(plan)| ==> Edits(plan)[i].path != Edits(plan)[j].path
    ensures forall i :: 0 <= i < |Edits(plan)| ==> Edits(plan)[i].path !in Deleted(plan)
    ensures lockfileChanged ==> LOCKFILE !in Deleted(plan) && LOCKFILE !in PathsOf(Edits(plan))
  {
    var paths, d, c := ReleasePaths(plan, lockfileChanged), |Deleted(plan)|, Edits(plan);
    assert forall i :: 0 <= i < d ==> paths[i] == Deleted(plan)[i];
    assert forall i :: 0 <= i < |c| ==> paths[d + i] == c[i].path;
    assert lockfileChanged ==> paths[d + |c|] == LOCKFILE;
    forall i, j | 0 <= i < j < |c| ensures c[i].path != c[j].path {
      assert paths[d + i] != paths[d + j];
    }
    forall i | 0 <= i < |c| ensures c[i].path !in Deleted(plan) && (lockfileChanged ==> c[i].path != LOCKFILE) {
      forall k | 0 <= k < d ensures Deleted(plan)[k] != c[i].path {
        assert paths[k] != paths[d + i];
      }
      assert lockfileChanged ==> paths[d + i] != paths[d + |c|];
    }
  }

  // ----- gates that escape the restoration, and gates that do not

  /** Gates that move neither HEAD nor tags hand them on unmoved, however many run. */
  lemma {:induction false} GatesKeepRefs(ignored: string -> bool, plan: Plan, gates: seq<Gate>, l: Local)
    requires forall g, x :: g in gates ==> g.effect(x).head == x.head && g.effect(x).tags == x.tags
    ensures GatesFrom(ignored, plan, gates, l).left.head == l.head
              && GatesFrom(ignored, plan, gates, l).left.tags == l.tags
  {
    if gates != [] {
      assert gates[0] in gates;
      GatesKeepRefs(ignored, plan, gates[1..], gates[0].effect(l));
    }
  }

  const MANIFEST := "package.json"

  function Manifest(version: string): Files { map[MANIFEST := version] }

  function OneManifest(): Plan {
    Plan("v2", [], true, false, [File(MANIFEST, "2")], File("CHANGELOG.md", ""), "", [])
  }

  predicate NothingIgnored(path: string) { false }

  function OnlyOutput(l: Local): Local { Local(l.head, l.tags, map["out" := ""]) }

  /** A gate that deletes a version file and leaves output: reading the version file back throws, and
      the output stays. */
  lemma UninspectedGate()
    ensures var start := Local(Root(Manifest("1")), map[], Manifest("1"));
            var gate := Gate(OnlyOutput, true, true);
            var run := GateResult(NothingIgnored, OneManifest(), [gate], start);
            run.failure == Some(NotInspected) && "out" in run.left.files && "out" !in start.files
  {
    var plan := OneManifest();
    assert plan.gateFiles[0] in plan.gateFiles;
  }

  function Committed(l: Local): Local {
    Local(Child(l.head, l.head.files), l.tags, l.files)
  }

  lemma OneWritten(files: Files, f: File)
    ensures Written(files, [f]) == files[f.path := f.content]
  {
    assert [f][..0] == [];
    assert Written(files, []) == files;
  }

  /** A gate that commits passes, and HEAD is no longer where the run found it: the restoration goes
      back to the commit the gate made. */
  lemma CommittingGate()
    ensures var start := Local(Root(Manifest("1")), map[], Manifest("1"));
            var run := GateResult(NothingIgnored, OneManifest(), [Gate(Committed, true, true)], start);
            run.failure.None? && run.left.head != start.head
  {
    var plan := OneManifest();
    var f := File(MANIFEST, "2");
    var start := Local(Root(Manifest("1")), map[], Manifest("1"));
    OneWritten(start.files, f);
    var written := start.(files := Written(start.files, plan.gateFiles));
    var gate := Gate(Committed, true, true);
    var left := Committed(written);
    assert PathsOf(plan.gateFiles) == {MANIFEST} by {
      assert f in plan.gateFiles;
    }
    var ignored := NothingIgnored;
    assert Verdict(ignored, plan, gate, left) == None;
    assert [gate][1..] == [];
    assert GatesFrom(ignored, plan, [gate], written) == GateRun(None, left);
  }
}
