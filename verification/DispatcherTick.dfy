/** One `tick` of the hosted dispatcher (dispatcher.ts): placement for every registered repository, then
    the selected ones one after another, each under a credential of its own, within a time budget. */
module DispatcherTick {
  import opened Wrappers

  /** How the steps of one repository come out, whatever they throw. A message is the text that is
      recorded, secrets already redacted. */
  datatype Script = Script(
    placementOk: bool,
    openSecrets: Option<string>, resolve: Option<string>, canObserve: bool, observeOk: bool,
    openStore: Option<string>, prune: Option<string>, issue: Result<string, string>,
    markSupplied: Option<string>, dispatch: Option<string>,
    deleteOk: bool, closeOk: bool)

  datatype Outcome = Ticked | Failed | Skipped

  datatype Entry = Entry(repository: string, outcome: Outcome, run: Option<nat>, error: Option<string>)

  /** What the tick does to the stores. */
  datatype Action =
    | Placed(repository: string, hosted: bool)
    | Opened(repository: string)
    | Issued(repository: string, id: string, expiresAt: int)
    | Dispatched(repository: string)
    | Deleted(repository: string, id: string)
    | Closed(repository: string)

  const MIN_REMAINING_MS := 20_000
  const GRACE_MS := 60_000
  const PLACEMENT_FAILED := "placement synchronization failed"
  const CLEANUP_FAILED := "dispatcher credential cleanup failed"
  const CLOSE_FAILED := "dispatcher credential storage close failed"

  // ----- selection

  /** `parseDispatcherRepositories` on normalised names: the first of each. */
  function ParseRepositories(names: seq<string>): seq<string> {
    if names == [] then []
    else
      var rest, last := ParseRepositories(names[..|names| - 1]), names[|names| - 1];
      if last in rest then rest else rest + [last]
  }

  function Filter(names: seq<string>, keep: set<string>): (r: seq<string>)
    ensures forall n :: n in r <==> n in names && n in keep
  {
    if names == [] then []
    else
      var last := names[|names| - 1];
      Filter(names[..|names| - 1], keep) + if last in keep then [last] else []
  }

  function Members(names: seq<string>): set<string> { set n | n in names }

  function Selected(configured: Option<seq<string>>, registered: seq<string>): seq<string> {
    match configured
    case None => registered
    case Some(names) => Filter(names, Members(registered))
  }

  predicate IsHosted(configured: Option<seq<string>>, repository: string) {
    configured.None? || repository in configured.value
  }

  ghost predicate Distinct(names: seq<string>) {
    forall i, j :: 0 <= i < j < |names| ==> names[i] != names[j]
  }

  lemma {:induction false} ParsedDistinct(names: seq<string>)
    ensures Distinct(ParseRepositories(names)) && forall n :: n in ParseRepositories(names) <==> n in names
  {
    if names != [] {
      var init, last := names[..|names| - 1], names[|names| - 1];
      assert names == init + [last];
      ParsedDistinct(init);
      var rest := ParseRepositories(init);
      assert forall i :: 0 <= i < |rest| ==> rest[i] in rest;
    }
  }

  // ----- what one repository comes to

  /** `failure ? `${failure}; ${message}` : message` */
  function AndThen(failure: string, message: string): string {
    if failure == "" then message else failure + "; " + message
  }

  /** The message of the first step that throws, if one does. */
  function Thrown(s: Script): Option<string> {
    if s.openStore.Some? then s.openStore
    else if s.prune.Some? then s.prune
    else if s.issue.Err? then Some(s.issue.error)
    else if s.markSupplied.Some? then s.markSupplied
    else s.dispatch
  }

  predicate IsIssued(s: Script) { s.openStore.None? && s.prune.None? && s.issue.Ok? }

  /** What `failure` ends as; empty when there is none. */
  function FailureText(s: Script): string {
    var thrown := match Thrown(s) case None => "" case Some(message) => message;
    var cleaned := if IsIssued(s) && !s.deleteOk then AndThen(thrown, CLEANUP_FAILED) else thrown;
    if s.openStore.None? && !s.closeOk then AndThen(cleaned, CLOSE_FAILED) else cleaned
  }

  /** The messages of what failed, in order: the step that threw, unless without a message, the clean-up
      of the credential, the close of the store. */
  ghost function Messages(s: Script): seq<string> {
    (if Thrown(s).Some? && Thrown(s).value != "" then [Thrown(s).value] else [])
    + (if IsIssued(s) && !s.deleteOk then ["dispatcher credential cleanup failed"] else [])
    + if s.openStore.None? && !s.closeOk then ["dispatcher credential storage close failed"] else []
  }

  ghost function Listed(messages: seq<string>): string {
    if messages == [] then ""
    else if |messages| == 1 then messages[0]
    else messages[0] + "; " + Listed(messages[1..])
  }

  lemma ListedUpToThree(a: string, b: string, c: string)
    ensures Listed([]) == "" && Listed([a]) == a && Listed([a, b]) == a + "; " + b
    ensures Listed([a, b, c]) == a + "; " + b + "; " + c
  {
    ListedCons(b, [c]);
    assert [a, b][1..] == [b] && [a, b, c][1..] == [b] + [c];
    assert a + "; " + b + "; " + c == a + "; " + (b + "; " + c);
  }

  lemma TextIsListed(s: Script)
    ensures FailureText(s) == Listed(Messages(s)) && (FailureText(s) == "" <==> Messages(s) == [])
  {
    var thrown := if Thrown(s).Some? then Thrown(s).value else "";
    ListedUpToThree(thrown, CLEANUP_FAILED, CLOSE_FAILED);
    ListedUpToThree(CLEANUP_FAILED, CLOSE_FAILED, "");
    ListedUpToThree(thrown, CLOSE_FAILED, "");
    ListedUpToThree(CLOSE_FAILED, "", "");
    assert |CLEANUP_FAILED| > 0 && |CLOSE_FAILED| > 0;
    hide Thrown, IsIssued, Listed;
    if IsIssued(s) && !s.deleteOk {
      assert Messages(s) == (if thrown == "" then [] else [thrown]) + [CLEANUP_FAILED]
                            + if s.openStore.None? && !s.closeOk then [CLOSE_FAILED] else [];
    }
  }

  /** What is recorded of a failure is those messages, after the one of the secrets if they failed,
      with `; ` between them. */
  lemma FailureIsListed(s: Script, repository: string, run: nat)
    ensures var messages := (if ResolutionFailure(s).Some? then [ResolutionFailure(s).value] else [])
                              + if GoesOn(s) then Messages(s) else [];
            EntryOf(s, repository, run).error == if messages == [] then None else Some(Listed(messages))
  {
    var rest := if GoesOn(s) then Messages(s) else [];
    TextIsListed(s);
    hide Messages, FailureText, GoesOn, Listed;
    if ResolutionFailure(s).Some? {
      ListedCons(ResolutionFailure(s).value, rest);
      assert [ResolutionFailure(s).value] + rest != [];
    } else {
      assert [] + rest == rest;
    }
    NoneListed();
  }

  lemma NoneListed()
    ensures Listed([]) == ""
  {}

  lemma ListedCons(m: string, more: seq<string>)
    ensures Listed([m] + more) == if more == [] then m else m + "; " + Listed(more)
  {
    assert ([m] + more)[1..] == more;
  }

  /** What is done with the store and the kernel before anything is retired. */
  function TryActions(s: Script, repository: string, expiresAt: int): seq<Action> {
    if s.openStore.Some? then []
    else if !IsIssued(s) then [Opened(repository)]
    else
      [Opened(repository), Issued(repository, s.issue.value, expiresAt)]
      + if s.markSupplied.None? then [Dispatched(repository)] else []
  }

  /** The actions of one repository that gets as far as its credential. */
  function CredentialActions(s: Script, repository: string, expiresAt: int): seq<Action> {
    TryActions(s, repository, expiresAt)
    + (if IsIssued(s) then [Deleted(repository, s.issue.value)] else [])
    + if s.openStore.None? then [Closed(repository)] else []
  }

  /** The message recorded when the repository's secrets could not be resolved. */
  function ResolutionFailure(s: Script): Option<string> {
    if s.openSecrets.Some? then s.openSecrets else s.resolve
  }

  /** Whether the repository goes on to its credential, perhaps only to observe. */
  predicate GoesOn(s: Script) {
    s.openSecrets.None? && (s.resolve.None? || (s.canObserve && s.observeOk))
  }

  function EntryOf(s: Script, repository: string, run: nat): Entry {
    var failure := if GoesOn(s) then FailureText(s) else "";
    match ResolutionFailure(s)
    case Some(message) => Entry(repository, Failed, Some(run),
                                Some(if failure == "" then message else message + "; " + failure))
    case None => Entry(repository, if failure == "" then Ticked else Failed, Some(run),
                       if failure == "" then None else Some(failure))
  }

  function ActionsOf(s: Script, repository: string, expiresAt: int): seq<Action> {
    if GoesOn(s) then CredentialActions(s, repository, expiresAt) else []
  }

  // ----- what is counted over a whole tick

  function Issues(trace: seq<Action>): seq<(string, string)> {
    if trace == [] then []
    else
      var last := trace[|trace| - 1];
      Issues(trace[..|trace| - 1]) + if last.Issued? then [(last.repository, last.id)] else []
  }

  function Deletions(trace: seq<Action>): seq<(string, string)> {
    if trace == [] then []
    else
      var last := trace[|trace| - 1];
      Deletions(trace[..|trace| - 1]) + if last.Deleted? then [(last.repository, last.id)] else []
  }

  function Opens(trace: seq<Action>): seq<string> {
    if trace == [] then []
    else
      var last := trace[|trace| - 1];
      Opens(trace[..|trace| - 1]) + if last.Opened? then [last.repository] else []
  }

  function Closes(trace: seq<Action>): seq<string> {
    if trace == [] then []
    else
      var last := trace[|trace| - 1];
      Closes(trace[..|trace| - 1]) + if last.Closed? then [last.repository] else []
  }

  lemma {:induction false} CredentialsAppend(a: seq<Action>, b: seq<Action>)
    ensures Issues(a + b) == Issues(a) + Issues(b) && Deletions(a + b) == Deletions(a) + Deletions(b)
  {
    if b == [] {
      assert a + b == a;
    } else {
      assert (a + b)[..|a + b| - 1] == a + b[..|b| - 1];
      CredentialsAppend(a, b[..|b| - 1]);
    }
  }

  lemma {:induction false} StoresAppend(a: seq<Action>, b: seq<Action>)
    ensures Opens(a + b) == Opens(a) + Opens(b) && Closes(a + b) == Closes(a) + Closes(b)
  {
    if b == [] {
      assert a + b == a;
    } else {
      assert (a + b)[..|a + b| - 1] == a + b[..|b| - 1];
      StoresAppend(a, b[..|b| - 1]);
    }
  }

  lemma CountsAppend(a: seq<Action>, b: seq<Action>)
    ensures Issues(a + b) == Issues(a) + Issues(b) && Deletions(a + b) == Deletions(a) + Deletions(b)
    ensures Opens(a + b) == Opens(a) + Opens(b) && Closes(a + b) == Closes(a) + Closes(b)
  {
    hide Issues, Deletions, Opens, Closes;
    CredentialsAppend(a, b);
    StoresAppend(a, b);
  }

  lemma CountsOne(a: Action)
    ensures Issues([a]) == (if a.Issued? then [(a.repository, a.id)] else [])
              && Deletions([a]) == if a.Deleted? then [(a.repository, a.id)] else []
    ensures Opens([a]) == (if a.Opened? then [a.repository] else [])
              && Closes([a]) == if a.Closed? then [a.repository] else []
  {
    assert [a][..0] == [];
    assert Issues([]) == [] && Deletions([]) == [] && Opens([]) == [] && Closes([]) == [];
  }

  /** Credentials are deleted in the order they were issued, each once under its own id and after it
      was issued; stores are closed as they were opened, and after; and no credential outlives the
      deadline by more than the grace. */
  ghost predicate IsBalanced(trace: seq<Action>, deadlineAt: int) {
    && Issues(trace) == Deletions(trace)
    && Opens(trace) == Closes(trace)
    && (forall a :: a in trace && a.Issued? ==> a.expiresAt <= deadlineAt + 60_000)
    && forall k :: 0 <= k <= |trace| ==> IsOwed(trace[..k])
  }

  /** What was deleted and closed so far had been issued and opened. */
  ghost predicate IsOwed(trace: seq<Action>) {
    Deletions(trace) <= Issues(trace) && Closes(trace) <= Opens(trace)
  }

  lemma BalancedAppend(a: seq<Action>, b: seq<Action>, deadlineAt: int)
    requires IsBalanced(a, deadlineAt) && IsBalanced(b, deadlineAt)
    ensures IsBalanced(a + b, deadlineAt)
  {
    hide Issues, Deletions, Opens, Closes;
    CountsAppend(a, b);
    forall k | 0 <= k <= |a + b| ensures IsOwed((a + b)[..k]) {
      if k <= |a| {
        assert (a + b)[..k] == a[..k];
      } else {
        assert (a + b)[..k] == a + b[..k - |a|] && IsOwed(b[..k - |a|]);
        CountsAppend(a, b[..k - |a|]);
      }
    }
  }

  /** Everything is issued and opened before anything is deleted or closed. */
  lemma OwedThroughout(a: seq<Action>, b: seq<Action>, k: nat)
    requires Deletions(a) == [] && Issues(b) == [] && Closes(a) == [] && Opens(b) == []
    requires Issues(a) == Deletions(b) && Opens(a) == Closes(b) && k <= |a + b|
    ensures IsOwed((a + b)[..k])
  {
    hide Issues, Deletions, Opens, Closes;
    if k <= |a| {
      assert (a + b)[..k] == a[..k] && a == a[..k] + a[k..];
      CountsAppend(a[..k], a[k..]);
    } else {
      var m := k - |a|;
      assert (a + b)[..k] == a + b[..m] && b == b[..m] + b[m..];
      CountsAppend(a, b[..m]);
      CountsAppend(b[..m], b[m..]);
    }
  }

  lemma ActionsBalanced(s: Script, repository: string, expiresAt: int, deadlineAt: int)
    requires expiresAt <= deadlineAt + GRACE_MS
    ensures IsBalanced(ActionsOf(s, repository, expiresAt), deadlineAt)
  {
    hide Issues, Deletions, Opens, Closes;
    if !GoesOn(s) || s.openStore.Some? {
      NothingBalanced(deadlineAt);
      assert ActionsOf(s, repository, expiresAt) == [];
    } else if !IsIssued(s) {
      UnissuedBalanced(repository);
      assert ActionsOf(s, repository, expiresAt) == [Opened(repository)] + [Closed(repository)];
    } else {
      IssuedBalanced(s, repository, expiresAt);
    }
  }

  lemma UnissuedBalanced(repository: string)
    ensures var t := [Opened(repository)] + [Closed(repository)];
            && Issues(t) == Deletions(t) == [] && Opens(t) == Closes(t) == [repository]
            && forall k :: 0 <= k <= |t| ==> IsOwed(t[..k])
  {
    hide Issues, Deletions, Opens, Closes;
    var o, c := Opened(repository), Closed(repository);
    CountsOne(o);
    CountsOne(c);
    CountsAppend([o], [c]);
    forall k | 0 <= k <= |[o] + [c]| ensures IsOwed(([o] + [c])[..k]) {
      OwedThroughout([o], [c], k);
    }
  }

  lemma NothingBalanced(deadlineAt: int)
    ensures IsBalanced([], deadlineAt)
  {}

  lemma IssuedBalanced(s: Script, repository: string, expiresAt: int)
    requires IsIssued(s)
    ensures var t := CredentialActions(s, repository, expiresAt);
            && Issues(t) == Deletions(t) == [(repository, s.issue.value)]
            && Opens(t) == Closes(t) == [repository]
            && forall k :: 0 <= k <= |t| ==> IsOwed(t[..k])
  {
    hide Issues, Deletions, Opens, Closes;
    var mid := if s.markSupplied.None? then [Dispatched(repository)] else [];
    NoCounts();
    CountsOne(Dispatched(repository));
    FiveBalanced(repository, s.issue.value, expiresAt, mid);
    assert CredentialActions(s, repository, expiresAt)
        == [Opened(repository)] + [Issued(repository, s.issue.value, expiresAt)] + mid
            + ([Deleted(repository, s.issue.value)] + [Closed(repository)]);
  }

  lemma FiveBalanced(repository: string, id: string, expiresAt: int, mid: seq<Action>)
    requires Issues(mid) == Deletions(mid) == [] && Opens(mid) == Closes(mid) == []
    ensures var t := [Opened(repository)] + [Issued(repository, id, expiresAt)] + mid
              + ([Deleted(repository, id)] + [Closed(repository)]);
            && Issues(t) == Deletions(t) == [(repository, id)] && Opens(t) == Closes(t) == [repository]
            && forall k :: 0 <= k <= |t| ==> IsOwed(t[..k])
  {
    hide Issues, Deletions, Opens, Closes;
    var o, i, del, c := Opened(repository), Issued(repository, id, expiresAt), Deleted(repository, id),
        Closed(repository);
    CountsOne(o);
    CountsOne(i);
    CountsOne(del);
    CountsOne(c);
    CountsAppend([o], [i]);
    CountsAppend([o] + [i], mid);
    CountsAppend([del], [c]);
    CountsAppend([o] + [i] + mid, [del] + [c]);
    forall k | 0 <= k <= |[o] + [i] + mid + ([del] + [c])| ensures IsOwed(([o] + [i] + mid + ([del] + [c]))[..k]) {
      OwedThroughout([o] + [i] + mid, [del] + [c], k);
    }
  }

  lemma NoCounts()
    ensures Issues([]) == Deletions([]) == [] && Opens([]) == Closes([]) == []
  {}

  // ----- the tick as it runs

  /** A credential expires after its time to live, counted from a reading of the clock not before
      `from`, or a minute after the deadline, whichever is earlier. */
  ghost predicate IsExpiry(clock: nat -> int, from: nat, deadlineAt: int, ttlSeconds: int, expiresAt: int) {
    && expiresAt <= deadlineAt + 60_000
    && exists n: nat :: from <= n && IsEarlier(clock(n) + ttlSeconds * 1000, deadlineAt + 60_000, expiresAt)
  }

  lemma SomeExpiry(clock: nat -> int, from: nat, deadlineAt: int, ttlSeconds: int) returns (expiresAt: int)
    ensures IsExpiry(clock, from, deadlineAt, ttlSeconds, expiresAt)
  {
    var a, b := clock(from) + ttlSeconds * 1000, deadlineAt + 60_000;
    expiresAt := if a < b then a else b;
    assert IsEarlier(clock(from) + ttlSeconds * 1000, deadlineAt + 60_000, expiresAt);
  }

  predicate IsEarlier(a: int, b: int, e: int) { e == if a < b then a else b }

  function Names(entries: seq<Entry>): (r: seq<string>)
    ensures |r| == |entries| && forall i :: 0 <= i < |r| ==> r[i] == entries[i].repository
  {
    seq(|entries|, i requires 0 <= i < |entries| => entries[i].repository)
  }

  class Tick {
    const clock: nat -> int
    const script: string -> Script
    var calls: nat
    var runs: nat
    var repositories: seq<Entry>
    var trace: seq<Action>

    constructor (clock: nat -> int, script: string -> Script)
      ensures this.clock == clock && this.script == script
      ensures calls == 0 && runs == 0 && repositories == [] && trace == []
    {
      this.clock, this.script, calls, runs, repositories, trace := clock, script, 0, 0, [], [];
    }

    /** Run ids are never used twice. */
    ghost predicate Valid()
      reads this
    {
      forall e :: e in repositories && e.run.Some? ==> e.run.value < runs
    }

    method Now() returns (t: int)
      modifies this`calls
      ensures t == clock(old(calls)) && calls == old(calls) + 1
    {
      t := clock(calls);
      calls := calls + 1;
    }

    method Do(a: Action)
      modifies this`trace
      ensures trace == old(trace) + [a]
    {
      trace := trace + [a];
    }

    /** The `try` and its `catch`: open, prune, issue, mark the secrets supplied, dispatch. */
    method TryCredential(repository: string, deadlineAt: int, ttlSeconds: int)
      returns (isOpen: bool, issued: Option<string>, failure: string, ghost expiresAt: int)
      modifies this`calls, this`trace
      ensures var s := script(repository);
              && isOpen == s.openStore.None?
              && issued == (if IsIssued(s) then Some(s.issue.value) else None)
              && failure == (if Thrown(s).Some? then Thrown(s).value else "")
              && trace == old(trace) + TryActions(s, repository, expiresAt)
      ensures calls >= old(calls) && IsExpiry(clock, old(calls), deadlineAt, ttlSeconds, expiresAt)
    {
      var s := script(repository);
      isOpen, issued, failure := false, None, "";
      expiresAt := SomeExpiry(clock, calls, deadlineAt, ttlSeconds);
      if s.openStore.Some? {
        failure := s.openStore.value;
        return;
      }
      Do(Opened(repository));
      isOpen := true;
      var pruneBefore := Now();
      if s.prune.Some? {
        failure := s.prune.value;
        return;
      }
      var t := Now();
      var expiry := if t + ttlSeconds * 1000 < deadlineAt + GRACE_MS then t + ttlSeconds * 1000
          else deadlineAt + GRACE_MS;
      expiresAt := expiry;
      assert t == clock(calls - 1) && IsEarlier(clock(calls - 1) + ttlSeconds * 1000, deadlineAt + 60_000, expiry);
      if s.issue.Err? {
        failure := s.issue.error;
        return;
      }
      Do(Issued(repository, s.issue.value, expiry));
      issued := Some(s.issue.value);
      if s.markSupplied.Some? {
        failure := s.markSupplied.value;
        return;
      }
      Do(Dispatched(repository));
      if s.dispatch.Some? {
        failure := s.dispatch.value;
      }
    }

    /** Under a credential, and then both `finally`s: the issued row is retired and the store closed,
        each whatever happened before. */
    method UseCredential(repository: string, deadlineAt: int, ttlSeconds: int)
      returns (failure: string, ghost expiresAt: int)
      modifies this`calls, this`trace
      ensures failure == FailureText(script(repository)) && calls >= old(calls)
      ensures IsExpiry(clock, old(calls), deadlineAt, ttlSeconds, expiresAt)
      ensures trace == old(trace) + CredentialActions(script(repository), repository, expiresAt)
    {
      hide TryActions, Thrown, IsIssued, AndThen;
      var s := script(repository);
      var isOpen, issued;
      isOpen, issued, failure, expiresAt := TryCredential(repository, deadlineAt, ttlSeconds);
      if issued.Some? {
        Do(Deleted(repository, issued.value));
        if !s.deleteOk {
          failure := AndThen(failure, CLEANUP_FAILED);
        }
      }
      if isOpen {
        Do(Closed(repository));
        if !s.closeOk {
          failure := AndThen(failure, CLOSE_FAILED);
        }
      }
    }

    /** Secrets for the tick, or for observation only; a failure is recorded at once. */
    method ResolveSecrets(repository: string, run: nat) returns (goOn: bool, failed: bool)
      modifies this`calls, this`repositories
      ensures calls >= old(calls) && goOn == GoesOn(script(repository))
                && failed == ResolutionFailure(script(repository)).Some?
      ensures repositories == old(repositories)
                + if failed then [Entry(repository, Failed, Some(run), ResolutionFailure(script(repository)))] else []
    {
      var s := script(repository);
      if s.openSecrets.Some? {
        repositories := repositories + [Entry(repository, Failed, Some(run), s.openSecrets)];
        return false, true;
      }
      var t := Now();
      if s.resolve.Some? {
        repositories := repositories + [Entry(repository, Failed, Some(run), s.resolve)];
        return s.canObserve && s.observeOk, true;
      }
      return true, false;
    }

    /** `repositories.find((entry) => entry.runId === runId)` */
    method FindRun(run: nat) returns (i: nat)
      requires exists e :: e in repositories && e.run == Some(run)
      ensures i < |repositories| && repositories[i].run == Some(run)
      ensures forall j :: 0 <= j < i ==> repositories[j].run != Some(run)
    {
      i := 0;
      while i < |repositories| && repositories[i].run != Some(run)
        invariant i <= |repositories| && forall j :: 0 <= j < i ==> repositories[j].run != Some(run)
      {
        i := i + 1;
      }
    }

    method RunRepository(repository: string, deadlineAt: int, ttlSeconds: int) returns (ghost expiresAt: int)
      requires Valid()
      modifies this
      ensures Valid() && calls >= old(calls)
      ensures repositories == old(repositories) + [EntryOf(script(repository), repository, old(runs))]
      ensures trace == old(trace) + ActionsOf(script(repository), repository, expiresAt)
      ensures IsExpiry(clock, old(calls), deadlineAt, ttlSeconds, expiresAt)
    {
      hide CredentialActions, FailureText;
      var run := runs;
      runs := runs + 1;
      ghost var before := repositories;
      expiresAt := SomeExpiry(clock, calls, deadlineAt, ttlSeconds);
      var goOn, failed := ResolveSecrets(repository, run);
      if !goOn {
        return;
      }
      var failure;
      failure, expiresAt := UseCredential(repository, deadlineAt, ttlSeconds);
      if !failed {
        repositories := repositories
            + [Entry(repository, if failure == "" then Ticked else Failed, Some(run),
                     if failure == "" then None else Some(failure))];
      } else if failure != "" {
        assert repositories[|before|] in repositories && repositories[|before|].run == Some(run);
        forall j | 0 <= j < |before| ensures repositories[j].run != Some(run) {
          assert before[j] in before;
        }
        var i := FindRun(run);
        repositories := repositories[i := repositories[i].(error := Some(repositories[i].error.value + "; "
            + failure))];
      }
    }

    /** Placement for every registered repository, selected or not. */
    method SyncPlacements(registered: seq<string>, configured: Option<seq<string>>) returns (failed: set<string>)
      requires Valid() && runs == 0
      modifies this`repositories, this`trace
      ensures Valid()
      ensures failed == FailedPlacements(script, registered)
      ensures repositories == old(repositories) + PlacementEntries(script, registered)
      ensures trace == old(trace) + Placements(registered, configured)
    {
      hide Placements, PlacementEntries, FailedPlacements, IsHosted;
      failed := {};
      NothingPlaced(script, configured);
      for i := 0 to |registered|
        invariant forall e :: e in repositories ==> e in old(repositories) || e.run.None?
        invariant failed == FailedPlacements(script, registered[..i])
        invariant repositories == old(repositories) + PlacementEntries(script, registered[..i])
        invariant trace == old(trace) + Placements(registered[..i], configured)
      {
        var r := registered[i];
        PlacementStep(script, registered, configured, i);
        Do(Placed(r, IsHosted(configured, r)));
        if !script(r).placementOk {
          failed := failed + {r};
          repositories := repositories + [Entry(r, Failed, None, Some(PLACEMENT_FAILED))];
        }
      }
      assert registered[..|registered|] == registered;
    }

    /** The budget check of one repository, and its run if there is time. */
    method Visit(repository: string, deadlineAt: int, ttlSeconds: int) returns (ghost expiresAt: int)
      requires Valid()
      modifies this
      ensures Valid() && calls > old(calls)
      ensures |repositories| == |old(repositories)| + 1
                && repositories == old(repositories) + [repositories[|old(repositories)|]]
      ensures IsEntry(clock, script, deadlineAt, repository, old(calls), repositories[|old(repositories)|])
      ensures trace == old(trace) + ActionsAt(clock, script, deadlineAt, repository, old(calls), expiresAt)
      ensures IsExpiry(clock, old(calls) + 1, deadlineAt, ttlSeconds, expiresAt)
    {
      hide EntryOf, ActionsOf;
      NotSkipped(script(repository), repository, runs);
      expiresAt := SomeExpiry(clock, calls + 1, deadlineAt, ttlSeconds);
      var t := Now();
      if t + MIN_REMAINING_MS > deadlineAt {
        repositories := repositories + [Entry(repository, Skipped, None, None)];
      } else {
        expiresAt := RunRepository(repository, deadlineAt, ttlSeconds);
      }
    }

    /** `tick`. `readings` are the positions of the clock readings the budget was checked at, one for
        each selected repository that got that far, and `expiries` when their credentials expire.

        Placement failures come first. Then each selected repository without one has exactly one entry,
        in order: skipped when the reading for it leaves less than the minimum, and otherwise what its
        own steps came to. The actions are the placements and then, in the same order, those that the
        steps of the repositories that were started call for. */
    method Run(registered: seq<string>, configured: Option<seq<string>>, budgetSeconds: int, ttlSeconds: int)
      returns (deadlineAt: int, ghost readings: seq<nat>, ghost expiries: seq<int>)
      requires calls == 0 && runs == 0 && repositories == [] && trace == []
      modifies this
      ensures deadlineAt == clock(0) + budgetSeconds * 1000
      ensures IsTick(clock, script, registered, configured, deadlineAt, readings, repositories)
      ensures |expiries| == |readings| == |Runnable(script, registered, configured)|
      ensures forall k :: 0 <= k < |expiries| ==>
                IsExpiry(clock, readings[k] + 1, deadlineAt, ttlSeconds, expiries[k])
      ensures trace == Placements(registered, configured)
                       + ActionsFrom(clock, script, deadlineAt, Runnable(script, registered, configured), readings,
                                     expiries)
      ensures IsBalanced(trace, deadlineAt)
    {
      hide IsBalanced, IsEntry, IsDone, IsActed, Filter, Selected, Members, Placements, PlacementEntries,
          FailedPlacements, ActionsAt, ActionsFrom;
      var now := Now();
      deadlineAt := now + budgetSeconds * 1000;
      var failed := SyncPlacements(registered, configured);
      ghost var first, placed := repositories, trace;
      assert trace == Placements(registered, configured);
      var selected := Selected(configured, registered);
      ghost var keep := Members(selected) - failed;
      readings, expiries := [], [];
      NothingDone(clock, script, deadlineAt, first, calls, keep);
      NothingActed(clock, script, deadlineAt, ttlSeconds, placed, keep);
      for i := 0 to |selected|
        invariant Valid()
                    && IsActed(clock, script, deadlineAt, ttlSeconds, placed, Filter(selected[..i], keep), readings,
                               expiries,
                               trace)
        invariant IsDone(clock, script, deadlineAt, first, Filter(selected[..i], keep), readings, repositories, calls)
      {
        var r := selected[i];
        FilterStep(selected, i, keep);
        if r !in failed {
          ghost var at, before, acted := calls, repositories, trace;
          ghost var expiresAt := Visit(r, deadlineAt, ttlSeconds);
          ActedSnoc(clock, script, deadlineAt, ttlSeconds, placed, Filter(selected[..i], keep), readings, expiries,
                    acted, r, at,
                    expiresAt);
          DoneSnoc(clock, script, deadlineAt, first, Filter(selected[..i], keep), readings, before, r, at,
                   repositories[|before|], calls);
          readings, expiries := readings + [at], expiries + [expiresAt];
        }
      }
      assert selected[..|selected|] == selected;
      assert Filter(selected, keep) == Runnable(script, registered, configured)
             && first == PlacementEntries(script, registered);
      assert placed == Placements(registered, configured);
      DoneIsTick(clock, script, registered, configured, deadlineAt, readings, repositories, calls);
      PlacementsBalanced(registered, configured, deadlineAt);
      ActedBalanced(clock, script, deadlineAt, ttlSeconds, placed, Runnable(script, registered, configured), readings,
                    expiries,
                    trace);
    }
  }

  /** What is done for one repository: nothing when it is skipped. */
  function ActionsAt(clock: nat -> int, script: string -> Script, deadlineAt: int, repository: string, reading: nat,
                     expiresAt: int): seq<Action>
  {
    if clock(reading) + MIN_REMAINING_MS > deadlineAt then [] else ActionsOf(script(repository), repository, expiresAt)
  }

  function ActionsFrom(clock: nat -> int, script: string -> Script, deadlineAt: int, names: seq<string>,
                       readings: seq<nat>, expiries: seq<int>): seq<Action>
    requires |names| == |readings| == |expiries|
  {
    if names == [] then []
    else
      var n := |names| - 1;
      ActionsFrom(clock, script, deadlineAt, names[..n], readings[..n], expiries[..n])
      + ActionsAt(clock, script, deadlineAt, names[n], readings[n], expiries[n])
  }

  /** The actions of the main loop so far. */
  ghost predicate IsActed(clock: nat -> int, script: string -> Script, deadlineAt: int, ttlSeconds: int,
                          placed: seq<Action>,
                          done: seq<string>,
                          readings: seq<nat>, expiries: seq<int>, trace: seq<Action>)
  {
    && |expiries| == |readings| == |done|
    && (forall k :: 0 <= k < |expiries| ==> IsExpiry(clock, readings[k] + 1, deadlineAt, ttlSeconds, expiries[k]))
    && trace == placed + ActionsFrom(clock, script, deadlineAt, done, readings, expiries)
  }

  lemma NothingActed(clock: nat -> int, script: string -> Script, deadlineAt: int, ttlSeconds: int, placed: seq<Action>,
                     keep: set<string>)
    ensures IsActed(clock, script, deadlineAt, ttlSeconds, placed, Filter([], keep), [], [], placed)
  {}

  lemma ActedSnoc(clock: nat -> int, script: string -> Script, deadlineAt: int, ttlSeconds: int, placed: seq<Action>,
                  done: seq<string>,
                  readings: seq<nat>, expiries: seq<int>, trace: seq<Action>, repository: string, reading: nat,
                      expiresAt: int)
    requires IsActed(clock, script, deadlineAt, ttlSeconds, placed, done, readings, expiries, trace)
               && IsExpiry(clock, reading + 1, deadlineAt, ttlSeconds, expiresAt)
    ensures IsActed(clock, script, deadlineAt, ttlSeconds, placed, done + [repository], readings + [reading],
                    expiries + [expiresAt],
                    trace + ActionsAt(clock, script, deadlineAt, repository, reading, expiresAt))
  {
    hide ActionsAt, IsExpiry;
    var n := |done|;
    assert (done + [repository])[..n] == done && (readings + [reading])[..n] == readings
           && (expiries + [expiresAt])[..n] == expiries;
  }

  lemma ActedBalanced(clock: nat -> int, script: string -> Script, deadlineAt: int, ttlSeconds: int,
                      placed: seq<Action>,
                      done: seq<string>,
                      readings: seq<nat>, expiries: seq<int>, trace: seq<Action>)
    requires IsActed(clock, script, deadlineAt, ttlSeconds, placed, done, readings, expiries, trace)
               && IsBalanced(placed, deadlineAt)
    ensures |expiries| == |readings| == |done|
              && forall k :: 0 <= k < |expiries| ==>
                   IsExpiry(clock, readings[k] + 1, deadlineAt, ttlSeconds, expiries[k])
    ensures trace == placed + ActionsFrom(clock, script, deadlineAt, done, readings, expiries)
    ensures IsBalanced(trace, deadlineAt)
  {
    assert forall k :: 0 <= k < |expiries| ==> expiries[k] <= deadlineAt + GRACE_MS;
    hide IsBalanced, IsExpiry, ActionsFrom;
    AllBalanced(clock, script, deadlineAt, done, readings, expiries);
    BalancedAppend(placed, ActionsFrom(clock, script, deadlineAt, done, readings, expiries), deadlineAt);
  }

  lemma {:induction false} AllBalanced(clock: nat -> int, script: string -> Script, deadlineAt: int, names: seq<string>,
                                       readings: seq<nat>, expiries: seq<int>)
    requires |names| == |readings| == |expiries|
               && forall k :: 0 <= k < |expiries| ==> expiries[k] <= deadlineAt + GRACE_MS
    ensures IsBalanced(ActionsFrom(clock, script, deadlineAt, names, readings, expiries), deadlineAt)
  {
    hide IsBalanced, ActionsOf;
    NothingBalanced(deadlineAt);
    if names != [] {
      var n := |names| - 1;
      AllBalanced(clock, script, deadlineAt, names[..n], readings[..n], expiries[..n]);
      ActionsBalanced(script(names[n]), names[n], expiries[n], deadlineAt);
      BalancedAppend(ActionsFrom(clock, script, deadlineAt, names[..n], readings[..n], expiries[..n]),
                     ActionsAt(clock, script, deadlineAt, names[n], readings[n], expiries[n]), deadlineAt);
    }
  }

  /** The main loop so far. */
  ghost predicate IsDone(clock: nat -> int, script: string -> Script, deadlineAt: int, first: seq<Entry>,
                         done: seq<string>,
                         readings: seq<nat>, entries: seq<Entry>, calls: nat)
  {
    && |readings| == |done| && |entries| == |first| + |done| && first <= entries
    && (forall k :: 0 <= k < |readings| ==> readings[k] < calls)
    && (forall j, k :: 0 <= j < k < |readings| ==> readings[j] < readings[k])
    && forall k :: 0 <= k < |done| ==> IsEntry(clock, script, deadlineAt, done[k], readings[k], entries[|first| + k])
  }

  lemma NothingDone(clock: nat -> int, script: string -> Script, deadlineAt: int, first: seq<Entry>, calls: nat,
                    keep: set<string>)
    ensures forall names: seq<string> :: names[..0] == []
    ensures IsDone(clock, script, deadlineAt, first, Filter([], keep), [], first, calls)
  {}

  lemma DoneSnoc(clock: nat -> int, script: string -> Script, deadlineAt: int, first: seq<Entry>, done: seq<string>,
                 readings: seq<nat>, entries: seq<Entry>, r: string, at: nat, e: Entry, calls: nat)
    requires IsDone(clock, script, deadlineAt, first, done, readings, entries, at)
    requires IsEntry(clock, script, deadlineAt, r, at, e) && calls > at
    ensures IsDone(clock, script, deadlineAt, first, done + [r], readings + [at], entries + [e], calls)
  {
    hide IsEntry;
    var done', readings', entries' := done + [r], readings + [at], entries + [e];
    forall k | 0 <= k < |done'|
      ensures IsEntry(clock, script, deadlineAt, done'[k], readings'[k], entries'[|first| + k])
    {
      if k < |done| {
        assert done'[k] == done[k] && readings'[k] == readings[k] && entries'[|first| + k] == entries[|first| + k];
      }
    }
  }

  lemma DoneIsTick(clock: nat -> int, script: string -> Script, registered: seq<string>,
                   configured: Option<seq<string>>,
                   deadlineAt: int, readings: seq<nat>, entries: seq<Entry>, calls: nat)
    requires IsDone(clock, script, deadlineAt, PlacementEntries(script, registered),
                    Runnable(script, registered, configured), readings, entries, calls)
    ensures IsTick(clock, script, registered, configured, deadlineAt, readings, entries)
  {
    hide IsEntry, PlacementEntries, Runnable;
  }

  lemma NotSkipped(s: Script, repository: string, run: nat)
    ensures EntryOf(s, repository, run).outcome != Skipped
  {}

  function FailedPlacements(script: string -> Script, registered: seq<string>): set<string> {
    set r | r in registered && !script(r).placementOk
  }

  lemma NothingPlaced(script: string -> Script, configured: Option<seq<string>>)
    ensures forall names: seq<string> :: names[..0] == []
    ensures FailedPlacements(script, []) == {} && PlacementEntries(script, []) == [] && Placements([], configured) == []
  {}

  lemma PlacementStep(script: string -> Script, registered: seq<string>, configured: Option<seq<string>>, i: nat)
    requires i < |registered|
    ensures var r := registered[i];
            && FailedPlacements(script, registered[..i + 1]) == FailedPlacements(script, registered[..i])
                 + (if script(r).placementOk then {} else {r})
            && PlacementEntries(script, registered[..i + 1]) == PlacementEntries(script, registered[..i])
                 + (if script(r).placementOk then [] else [Entry(r, Failed, None, Some(PLACEMENT_FAILED))])
            && Placements(registered[..i + 1], configured) == Placements(registered[..i], configured)
                 + [Placed(r, IsHosted(configured, r))]
  {
    assert registered[..i + 1][..i] == registered[..i];
    assert registered[..i + 1] == registered[..i] + [registered[i]];
  }

  lemma FilterStep(names: seq<string>, i: nat, keep: set<string>)
    requires i < |names|
    ensures Filter(names[..i + 1], keep) == if names[i] in keep then Filter(names[..i], keep) + [names[i]]
              else Filter(names[..i], keep)
    ensures names[i] in Members(names)
  {
    assert names[..i + 1][..i] == names[..i];
  }

  /** The entries of the placement loop. */
  function PlacementEntries(script: string -> Script, registered: seq<string>): seq<Entry> {
    if registered == [] then []
    else
      var last := registered[|registered| - 1];
      PlacementEntries(script, registered[..|registered| - 1])
      + if script(last).placementOk then [] else [Entry(last, Failed, None, Some(PLACEMENT_FAILED))]
  }

  function Placements(registered: seq<string>, configured: Option<seq<string>>): (r: seq<Action>)
    ensures |r| == |registered|
              && forall i :: 0 <= i < |r| ==> r[i] == Placed(registered[i], IsHosted(configured, registered[i]))
  {
    if registered == [] then []
    else
      var last := registered[|registered| - 1];
      Placements(registered[..|registered| - 1], configured) + [Placed(last, IsHosted(configured, last))]
  }

  /** A registered repository is placed as hosted when nothing is configured or it is among the names. */
  lemma PlacedAsConfigured(registered: seq<string>, configured: Option<seq<string>>, i: nat)
    requires i < |registered|
    ensures Placements(registered, configured)[i].repository == registered[i]
    ensures Placements(registered, configured)[i].hosted <==>
              configured.None? || exists k :: 0 <= k < |configured.value| && configured.value[k] == registered[i]
  {}

  lemma {:induction false} PlacementsBalanced(registered: seq<string>, configured: Option<seq<string>>, deadlineAt: int)
    ensures IsBalanced(Placements(registered, configured), deadlineAt)
  {
    if registered == [] {
      NothingBalanced(deadlineAt);
    } else {
      hide Issues, Deletions, Opens, Closes;
      var last := registered[|registered| - 1];
      PlacementsBalanced(registered[..|registered| - 1], configured, deadlineAt);
      CountsOne(Placed(last, IsHosted(configured, last)));
      BalancedAppend(Placements(registered[..|registered| - 1], configured), [Placed(last, IsHosted(configured, last))],
                     deadlineAt);
    }
  }

  /** One selected repository: skipped when its reading left too little, else run. */
  ghost predicate IsEntry(clock: nat -> int, script: string -> Script, deadlineAt: int, repository: string,
                          reading: nat, e: Entry)
  {
    if deadlineAt - clock(reading) < 20_000 then e == Entry(repository, Skipped, None, None)
    else e.outcome != Skipped && exists run :: e == EntryOf(script(repository), repository, run)
  }

  /** The repositories the main loop comes to: selected, and placed. */
  function Runnable(script: string -> Script, registered: seq<string>, configured: Option<seq<string>>): seq<string> {
    Filter(Selected(configured, registered),
           Members(Selected(configured, registered)) - FailedPlacements(script, registered))
  }

  ghost predicate IsTick(clock: nat -> int, script: string -> Script, registered: seq<string>,
                         configured: Option<seq<string>>,
                         deadlineAt: int, readings: seq<nat>, entries: seq<Entry>)
  {
    var first, runnable := PlacementEntries(script, registered), Runnable(script, registered, configured);
    && |readings| == |runnable| && |entries| == |first| + |runnable| && first <= entries
    && (forall j, k :: 0 <= j < k < |readings| ==> readings[j] < readings[k])
    && forall k :: 0 <= k < |runnable| ==>
         IsEntry(clock, script, deadlineAt, runnable[k], readings[k], entries[|first| + k])
  }

  // ----- what a tick means

  /** The clock never goes back: once one repository is skipped for the budget, none after it is
      started. */
  lemma NoneStartedAfterSkip(clock: nat -> int, script: string -> Script, registered: seq<string>,
                             configured: Option<seq<string>>,
                             deadlineAt: int, readings: seq<nat>, entries: seq<Entry>, i: nat, j: nat)
    requires IsTick(clock, script, registered, configured, deadlineAt, readings, entries)
    requires forall m, n :: m <= n ==> clock(m) <= clock(n)
    requires i <= j < |entries| && entries[i].outcome == Skipped
    ensures entries[j].outcome == Skipped
  {
    hide PlacementEntries, Runnable, EntryOf;
    var first, runnable := PlacementEntries(script, registered), Runnable(script, registered, configured);
    PlacementOnlyFails(script, registered);
    forall k | 0 <= k < |first| ensures entries[k].outcome == Failed {
      assert entries[k] == first[k] && first[k] in first;
    }
    var m, n := i - |first|, j - |first|;
    assert IsEntry(clock, script, deadlineAt, runnable[m], readings[m], entries[|first| + m]);
    assert IsEntry(clock, script, deadlineAt, runnable[n], readings[n], entries[|first| + n]);
    assert readings[m] <= readings[n];
    assert clock(readings[m]) <= clock(readings[n]);
  }

  lemma {:induction false} PlacementOnlyFails(script: string -> Script, registered: seq<string>)
    ensures forall e :: e in PlacementEntries(script, registered) ==>
              && e == Entry(e.repository, Failed, None, Some("placement synchronization failed"))
              && e.repository in registered && !script(e.repository).placementOk
  {
    if registered != [] {
      PlacementOnlyFails(script, registered[..|registered| - 1]);
    }
  }

  lemma {:induction false} FilterOnce(names: seq<string>, keep: set<string>, r: string)
    requires Distinct(names)
    ensures multiset(Filter(names, keep))[r] == if r in names && r in keep then 1 else 0
  {
    if names != [] {
      var init, last := names[..|names| - 1], names[|names| - 1];
      assert names == init + [last];
      FilterOnce(init, keep, r);
    }
  }

  lemma {:induction false} PlacementOnce(script: string -> Script, registered: seq<string>, r: string)
    requires Distinct(registered)
    ensures multiset(Names(PlacementEntries(script, registered)))[r]
              == if r in registered && !script(r).placementOk then 1 else 0
  {
    if registered != [] {
      var init, last := registered[..|registered| - 1], registered[|registered| - 1];
      assert registered == init + [last];
      PlacementOnce(script, init, r);
      NamesAppend(PlacementEntries(script, init),
                  if script(last).placementOk then [] else [Entry(last, Failed, None, Some(PLACEMENT_FAILED))]);
      assert Names([Entry(last, Failed, None, Some(PLACEMENT_FAILED))]) == [last];
      assert Names([]) == [];
    }
  }

  lemma NamesAppend(a: seq<Entry>, b: seq<Entry>)
    ensures Names(a + b) == Names(a) + Names(b)
  {}

  lemma SelectedDistinct(configured: Option<seq<string>>, registered: seq<string>)
    requires Distinct(registered) && (configured.Some? ==> Distinct(configured.value))
    ensures Distinct(Selected(configured, registered))
              && forall r :: r in Selected(configured, registered) ==> r in registered
  {
    if configured.Some? {
      FilterDistinct(configured.value, Members(registered));
    }
  }

  lemma {:induction false} FilterDistinct(names: seq<string>, keep: set<string>)
    requires Distinct(names)
    ensures Distinct(Filter(names, keep))
  {
    if names != [] {
      var init, last := names[..|names| - 1], names[|names| - 1];
      FilterDistinct(init, keep);
      var kept := Filter(init, keep);
      assert forall i :: 0 <= i < |kept| ==> kept[i] in kept;
    }
  }

  /** Whatever the steps throw, every selected repository has exactly one entry, and any other
      registered repository one exactly when its placement failed. */
  lemma OneOutcomeEach(clock: nat -> int, script: string -> Script, registered: seq<string>,
                       configured: Option<seq<string>>,
                       deadlineAt: int, readings: seq<nat>, entries: seq<Entry>, r: string)
    requires IsTick(clock, script, registered, configured, deadlineAt, readings, entries)
    requires Distinct(registered) && (configured.Some? ==> Distinct(configured.value))
    ensures multiset(Names(entries))[r] ==
              if r in Selected(configured, registered) || (r in registered && !script(r).placementOk) then 1 else 0
  {
    hide PlacementEntries, Selected, Distinct, EntryOf;
    var first, runnable := PlacementEntries(script, registered), Runnable(script, registered, configured);
    SelectedDistinct(configured, registered);
    PlacementOnce(script, registered, r);
    FilterOnce(Selected(configured, registered),
               Members(Selected(configured, registered)) - FailedPlacements(script, registered), r);
    assert entries == first + entries[|first|..];
    NamesAppend(first, entries[|first|..]);
    RunnableNames(clock, script, registered, configured, deadlineAt, readings, entries);
  }

  lemma RunnableNames(clock: nat -> int, script: string -> Script, registered: seq<string>,
                      configured: Option<seq<string>>,
                      deadlineAt: int, readings: seq<nat>, entries: seq<Entry>)
    requires IsTick(clock, script, registered, configured, deadlineAt, readings, entries)
    ensures Names(entries[|PlacementEntries(script, registered)|..]) == Runnable(script, registered, configured)
  {
    hide PlacementEntries, Runnable, IsEntry;
    var first, runnable := PlacementEntries(script, registered), Runnable(script, registered, configured);
    var rest := entries[|first|..];
    forall k | 0 <= k < |rest| ensures rest[k].repository == runnable[k] {
      assert rest[k] == entries[|first| + k];
      EntryNames(clock, script, deadlineAt, runnable[k], readings[k], rest[k]);
    }
  }

  lemma EntryNames(clock: nat -> int, script: string -> Script, deadlineAt: int, repository: string, reading: nat,
                   e: Entry)
    requires IsEntry(clock, script, deadlineAt, repository, reading, e)
    ensures e.repository == repository
  {}

  /** A started repository counts as ticked exactly when its secrets were resolved, cleanup and close
      succeeded, and no step threw a message that is not empty: an error without a message leaves no
      failure behind. */
  lemma TickedIff(s: Script, repository: string, run: nat)
    ensures EntryOf(s, repository, run).outcome == Ticked <==>
              && s.openSecrets.None? && s.resolve.None?
              && (Thrown(s).None? || Thrown(s) == Some(""))
              && (IsIssued(s) ==> s.deleteOk) && (s.openStore.None? ==> s.closeOk)
  {}

  /** So a dispatch that throws an empty message is reported as ticked. */
  lemma EmptyMessageTicks()
    ensures var s := Script(true, None, None, false, false, None, None, Ok("id"), None, Some(""), true, true);
            Thrown(s).Some? && EntryOf(s, "r", 0).outcome == Ticked
  {}
}
