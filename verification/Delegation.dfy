/** How long a delegated credential lives (`delegated-authority.ts`). Two evaluators answer the same
    question, one over the facts a reducer folded out of the log (`service-facts.ts`), one over the
    log itself. */
module Delegation {
  import opened Wrappers

  const GRACE_MS := 60_000

  /** Identifiers are never empty. */
  type Id = s: string | s != "" witness "x"

  type Timestamp = string

  /** `Date.parse`: `None` is NaN. */
  type Parse = Timestamp -> Option<int>

  datatype BuildKind =
    | SessionStarted(session: Id)
    | SessionEnded(session: Id)
    | BuildCompleted
    | BuildAborted
    | OtherBuild

  datatype HarvestKind =
    | HarvestStarted(run: Id)
    | Authorized(run: Id, execution: Id, leaseHolder: Id)
    | HarvestSessionStarted(run: Id, session: Id)
    | HarvestSessionEnded(run: Id, session: Id)
    | HarvestSessionSuspended(run: Id, session: Id)
    | Released(execution: Id)
    | Ended(execution: Id)
    | HarvestCompleted(run: Id)
    | HarvestEscalated(run: Id)
    | RecoveryExhausted(run: Id)
    | HarvestFailed(run: Id, willRetry: bool)
    | OtherHarvest

  datatype Event<K> = Event(seqNo: int, ts: Timestamp, kind: K)

  type Log<K> = seq<Event<K>>

  /** Contiguous canonical logs: the sequence numbers are 1, 2, 3 and so on. */
  ghost predicate Dense<K>(log: Log<K>) {
    forall i :: 0 <= i < |log| ==> log[i].seqNo == i + 1
  }

  datatype ClaimKind = BuildRunner | BuildPhase | HarvestRunner | HarvestPhase

  datatype Claims = Claims(kind: ClaimKind, repo: Id, id: Id, anchor: int,
                           session: Option<Id>, execution: Option<Id>, leaseHolder: Option<Id>)

  predicate OfBuild(kind: ClaimKind) { kind.BuildRunner? || kind.BuildPhase? }

  /** An ending keeps the credential alive for a grace period; an unreadable time for none. */
  predicate Alive(parse: Parse, at: Timestamp, now: int) {
    parse(at).Some? && now < parse(at).value + GRACE_MS
  }

  // ----- the facts

  datatype Ending = Ending(seqNo: int, at: Timestamp)
  datatype Session = Session(starts: seq<int>, endings: seq<Ending>, suspended: bool)
  datatype BuildFacts = BuildFacts(lastSeq: int, sessions: map<string, Session>, terminals: seq<Ending>)
  datatype Authorization = Authorization(seqNo: int, leaseHolder: Id)
  datatype HarvestFacts = HarvestFacts(
    lastSeq: int,
    runs: set<string>,
    sessions: map<(string, string), Session>,
    authorizations: map<(string, string), Authorization>,
    releases: map<string, seq<Timestamp>>,
    endings: map<string, seq<Ending>>)

  function Key(id: string): string { "id:" + id }

  lemma KeyInjective(a: string, b: string)
    ensures Key(a) == Key(b) <==> a == b
  {
    assert Key(a)[3..] == a && Key(b)[3..] == b;
  }

  const NO_SESSION := Session([], [], false)

  function At<K, V>(m: map<K, V>, k: K, default: V): V {
    if k in m then m[k] else default
  }

  function FoldBuildEvent(acc: BuildFacts, e: Event<BuildKind>): BuildFacts {
    var acc := acc.(lastSeq := e.seqNo);
    match e.kind
    case SessionStarted(s) =>
      var was := At(acc.sessions, Key(s), NO_SESSION);
      acc.(sessions := acc.sessions[Key(s) := was.(starts := was.starts + [e.seqNo])])
    case SessionEnded(s) =>
      var was := At(acc.sessions, Key(s), NO_SESSION);
      acc.(sessions := acc.sessions[Key(s) := was.(endings := was.endings + [Ending(e.seqNo, e.ts)])])
    case OtherBuild => acc
    case _ => acc.(terminals := acc.terminals + [Ending(e.seqNo, e.ts)])
  }

  function FoldBuild(log: Log<BuildKind>): BuildFacts {
    if log == [] then BuildFacts(0, map[], [])
    else FoldBuildEvent(FoldBuild(log[..|log| - 1]), log[|log| - 1])
  }

  predicate OfSession(k: HarvestKind) {
    k.HarvestSessionStarted? || k.HarvestSessionEnded? || k.HarvestSessionSuspended?
  }

  function TouchSession(was: Session, e: Event<HarvestKind>): Session {
    if e.kind.HarvestSessionStarted? then was.(starts := was.starts + [e.seqNo])
    else Session(was.starts, was.endings + [Ending(e.seqNo, e.ts)], was.suspended || e.kind.HarvestSessionSuspended?)
  }

  function FoldHarvestEvent(acc: HarvestFacts, e: Event<HarvestKind>): HarvestFacts {
    var acc := acc.(lastSeq := e.seqNo);
    if OfSession(e.kind) then
      var k := (Key(e.kind.run), Key(e.kind.session));
      acc.(sessions := acc.sessions[k := TouchSession(At(acc.sessions, k, NO_SESSION), e)])
    else
      match e.kind
      case HarvestStarted(run) => acc.(runs := acc.runs + {Key(run)})
      case Authorized(run, execution, holder) =>
        var k := (Key(run), Key(execution));
        if k in acc.authorizations then acc     // the first authorization stays
        else acc.(authorizations := acc.authorizations[k := Authorization(e.seqNo, holder)])
      case Released(execution) => AddRelease(acc, execution, e)
      case Ended(execution) => AddRelease(acc, execution, e)
      case HarvestFailed(run, willRetry) => if willRetry then acc else AddEnding(acc, run, e)
      case HarvestCompleted(run) => AddEnding(acc, run, e)
      case HarvestEscalated(run) => AddEnding(acc, run, e)
      case RecoveryExhausted(run) => AddEnding(acc, run, e)
      case _ => acc
  }

  function AddRelease(acc: HarvestFacts, execution: Id, e: Event<HarvestKind>): HarvestFacts {
    acc.(releases := acc.releases[Key(execution) := At(acc.releases, Key(execution), []) + [e.ts]])
  }

  function AddEnding(acc: HarvestFacts, run: Id, e: Event<HarvestKind>): HarvestFacts {
    acc.(endings := acc.endings[Key(run) := At(acc.endings, Key(run), []) + [Ending(e.seqNo, e.ts)]])
  }

  function FoldHarvest(log: Log<HarvestKind>): HarvestFacts {
    if log == [] then HarvestFacts(0, {}, map[], map[], map[], map[])
    else FoldHarvestEvent(FoldHarvest(log[..|log| - 1]), log[|log| - 1])
  }

  // ----- the evaluator over facts

  /** `filter(seq >= from)` then `map(at)`, and `every` over the result. */
  predicate AllAlive(parse: Parse, endings: seq<Ending>, from: int, now: int) {
    forall e :: e in endings && e.seqNo >= from ==> Alive(parse, e.at, now)
  }

  predicate BuildFactsActive(parse: Parse, claims: Claims, facts: BuildFacts, now: int) {
    && 1 <= claims.anchor <= facts.lastSeq
    && var session := if claims.session.Some? then At(facts.sessions, Key(claims.session.value), NO_SESSION)
         else NO_SESSION;
       && (claims.session.Some? ==> claims.anchor in session.starts)
       && var endings := facts.terminals + session.endings;
          && !(facts.terminals != [] && forall e :: e in endings ==> e.seqNo < claims.anchor)
          && AllAlive(parse, endings, claims.anchor, now)
  }

  /** `delegationFactKey(claims.execution!)`: a missing execution is spelt "undefined". */
  function ExecutionKey(execution: Option<Id>): string {
    Key(if execution.Some? then execution.value else "undefined")
  }

  predicate HarvestFactsActive(parse: Parse, claims: Claims, facts: HarvestFacts, now: int) {
    var run := Key(claims.id);
    var execution := ExecutionKey(claims.execution);
    && 1 <= claims.anchor <= facts.lastSeq
    && run in facts.runs && (run, execution) in facts.authorizations
    && var authorized := facts.authorizations[(run, execution)];
       var session := if claims.session.Some? then At(facts.sessions, (run, Key(claims.session.value)), NO_SESSION)
           else NO_SESSION;
       && (claims.kind.HarvestRunner? ==>
            claims.anchor == authorized.seqNo && claims.leaseHolder == Some(authorized.leaseHolder))
       && (claims.session.Some? ==> claims.anchor in session.starts && !session.suspended)
       && (forall at :: at in At(facts.releases, execution, []) ==> Alive(parse, at, now))
       && AllAlive(parse, At(facts.endings, run, []) + session.endings, authorized.seqNo, now)
  }

  // ----- what both evaluators mean

  ghost predicate Has<K>(log: Log<K>, kind: K) {
    exists i :: 0 <= i < |log| && log[i].kind == kind
  }

  lemma HasSnoc<K>(front: Log<K>, last: Event<K>, kind: K)
    ensures Has(front + [last], kind) <==> Has(front, kind) || last.kind == kind
  {
    var log := front + [last];
    assert log[|front|] == last;
    if Has(front, kind) {
      var i :| 0 <= i < |front| && front[i].kind == kind;
      assert log[i] == front[i];
    }
  }

  ghost predicate IsTerminal(k: BuildKind) { k.BuildCompleted? || k.BuildAborted? }

  ghost predicate EndsBuild(claims: Claims, k: BuildKind) {
    IsTerminal(k) || (k.SessionEnded? && claims.session == Some(k.session))
  }

  /** The time reads, and at `now` it is less than a minute ago. */
  ghost predicate WithinGrace(parse: Parse, at: Timestamp, now: int) {
    parse(at).Some? && now - parse(at).value < 60 * 1000
  }

  /** The anchor is in the log, and is the session's start when there is one; no ending from the
      anchor on has outlived its grace; and the build did not end wholly before the anchor. */
  ghost predicate BuildActive(parse: Parse, claims: Claims, log: Log<BuildKind>, now: int) {
    && 1 <= claims.anchor <= |log|
    && (claims.session.Some? ==> log[claims.anchor - 1].kind == SessionStarted(claims.session.value))
    && BuildEndingsAlive(parse, claims, log, now)
    && (Terminated(log) ==> BuildEnds(claims, log))
  }

  ghost predicate BuildEndingsAlive(parse: Parse, claims: Claims, log: Log<BuildKind>, now: int) {
    forall i :: 0 <= i < |log| && claims.anchor <= i + 1 && EndsBuild(claims, log[i].kind) ==>
        WithinGrace(parse, log[i].ts, now)
  }

  ghost predicate Terminated(log: Log<BuildKind>) {
    exists i :: 0 <= i < |log| && IsTerminal(log[i].kind)
  }

  /** Some ending comes at the anchor or later. */
  ghost predicate BuildEnds(claims: Claims, log: Log<BuildKind>) {
    exists i :: 0 <= i < |log| && claims.anchor <= i + 1 && EndsBuild(claims, log[i].kind)
  }

  ghost predicate EndsHarvest(claims: Claims, k: HarvestKind) {
    || (k.HarvestCompleted? && k.run == claims.id)
    || (k.HarvestEscalated? && k.run == claims.id)
    || (k.RecoveryExhausted? && k.run == claims.id)
    || (k.HarvestFailed? && k.run == claims.id && !k.willRetry)
    || (k.HarvestSessionEnded? && k.run == claims.id && claims.session == Some(k.session))
    || (k.HarvestSessionSuspended? && k.run == claims.id && claims.session == Some(k.session))
  }

  ghost predicate Authorizes(claims: Claims, execution: string, k: HarvestKind) {
    k.Authorized? && k.run == claims.id && k.execution == execution
  }

  ghost predicate Releases(execution: string, k: HarvestKind) {
    (k.Released? && k.execution == execution) || (k.Ended? && k.execution == execution)
  }

  /** Event `a` is the first that authorizes the execution. */
  ghost predicate FirstAuthorization(claims: Claims, execution: string, log: Log<HarvestKind>, a: int) {
    && 0 <= a < |log| && Authorizes(claims, execution, log[a].kind)
    && forall i :: 0 <= i < a ==> !Authorizes(claims, execution, log[i].kind)
  }

  ghost predicate HarvestActiveFrom(parse: Parse, claims: Claims, execution: string, log: Log<HarvestKind>, now: int,
                                    a: int)
  {
    && 1 <= claims.anchor <= |log|
    && FirstAuthorization(claims, execution, log, a)
    && Has(log, HarvestStarted(claims.id))
    && (claims.kind.HarvestRunner? ==> claims.anchor == a + 1 && claims.leaseHolder == Some(log[a].kind.leaseHolder))
    && (claims.session.Some? ==>
        && log[claims.anchor - 1].kind == HarvestSessionStarted(claims.id, claims.session.value)
        && !Has(log, HarvestSessionSuspended(claims.id, claims.session.value)))
    && ReleasesAlive(parse, execution, log, now)
    && HarvestEndingsAlive(parse, claims, log, now, a)
  }

  ghost predicate ReleasesAlive(parse: Parse, execution: string, log: Log<HarvestKind>, now: int) {
    forall i :: 0 <= i < |log| && Releases(execution, log[i].kind) ==> WithinGrace(parse, log[i].ts, now)
  }

  ghost predicate HarvestEndingsAlive(parse: Parse, claims: Claims, log: Log<HarvestKind>, now: int, a: int) {
    forall i :: 0 <= i < |log| && a <= i && EndsHarvest(claims, log[i].kind) ==> WithinGrace(parse, log[i].ts, now)
  }

  ghost predicate HarvestActive(parse: Parse, claims: Claims, execution: string, log: Log<HarvestKind>, now: int) {
    exists a :: HarvestActiveFrom(parse, claims, execution, log, now, a)
  }

  // ----- the folded facts hold exactly what the log says

  lemma {:induction false} FoldBuildFacts(log: Log<BuildKind>)
    requires Dense(log)
    ensures var facts := FoldBuild(log);
            && facts.lastSeq == |log|
            && (forall e :: e in facts.terminals <==>
                  1 <= e.seqNo <= |log| && IsTerminal(log[e.seqNo - 1].kind) && log[e.seqNo - 1].ts == e.at)
  {
    if log != [] {
      FoldBuildFacts(log[..|log| - 1]);
    }
  }

  lemma {:induction false} FoldBuildSession(log: Log<BuildKind>, s: Id)
    requires Dense(log)
    ensures var session := At(FoldBuild(log).sessions, Key(s), NO_SESSION);
            && (forall n :: n in session.starts <==> 1 <= n <= |log| && log[n - 1].kind == SessionStarted(s))
            && (forall e :: e in session.endings <==>
                  1 <= e.seqNo <= |log| && log[e.seqNo - 1].kind == SessionEnded(s) && log[e.seqNo - 1].ts == e.at)
  {
    if log != [] {
      var last := log[|log| - 1];
      FoldBuildSession(log[..|log| - 1], s);
      if last.kind.SessionStarted? || last.kind.SessionEnded? {
        KeyInjective(s, last.kind.session);
      }
    }
  }

  lemma RunsStep(acc: HarvestFacts, e: Event<HarvestKind>, run: Id)
    ensures FoldHarvestEvent(acc, e).lastSeq == e.seqNo
    ensures Key(run) in FoldHarvestEvent(acc, e).runs <==> Key(run) in acc.runs || e.kind == HarvestStarted(run)
  {
    if e.kind.HarvestStarted? {
      KeyInjective(run, e.kind.run);
    }
  }

  lemma {:induction false} FoldHarvestRuns(log: Log<HarvestKind>, run: Id)
    requires Dense(log)
    ensures FoldHarvest(log).lastSeq == |log|
    ensures Key(run) in FoldHarvest(log).runs <==> Has(log, HarvestStarted(run))
  {
    if log != [] {
      var front, last := log[..|log| - 1], log[|log| - 1];
      FoldHarvestRuns(front, run);
      RunsStep(FoldHarvest(front), last, run);
      HasSnoc(front, last, HarvestStarted(run));
      assert log == front + [last];
      hide FoldHarvestEvent, Has;
    }
  }

  /** The authorization the facts hold is the first in the log, if there is any. */
  ghost predicate HoldsAuthorization(claims: Claims, execution: string, log: Log<HarvestKind>, facts: HarvestFacts) {
    var k := (Key(claims.id), Key(execution));
    if k in facts.authorizations then
      var a := facts.authorizations[k].seqNo - 1;
      FirstAuthorization(claims, execution, log, a) && facts.authorizations[k].leaseHolder == log[a].kind.leaseHolder
    else
      forall i :: 0 <= i < |log| ==> !Authorizes(claims, execution, log[i].kind)
  }

  lemma AuthorizationStep(claims: Claims, execution: string, front: Log<HarvestKind>, last: Event<HarvestKind>,
                          acc: HarvestFacts, facts: HarvestFacts)
    requires HoldsAuthorization(claims, execution, front, acc) && last.seqNo == |front| + 1
    requires last.kind.Authorized? ==> facts == FoldHarvestEvent(acc, last)
    requires !last.kind.Authorized? ==> facts.authorizations == acc.authorizations
    ensures HoldsAuthorization(claims, execution, front + [last], facts)
  {
    if last.kind.Authorized? {
      KeyInjective(claims.id, last.kind.run);
      KeyInjective(execution, last.kind.execution);
    }
  }

  lemma AuthorizationsUntouched(acc: HarvestFacts, e: Event<HarvestKind>)
    ensures !e.kind.Authorized? ==> FoldHarvestEvent(acc, e).authorizations == acc.authorizations
  {}

  lemma SessionsUntouched(acc: HarvestFacts, e: Event<HarvestKind>)
    ensures !OfSession(e.kind) ==> FoldHarvestEvent(acc, e).sessions == acc.sessions
  {}

  lemma ReleasesUntouched(acc: HarvestFacts, e: Event<HarvestKind>)
    ensures !e.kind.Released? && !e.kind.Ended? ==> FoldHarvestEvent(acc, e).releases == acc.releases
  {}

  lemma {:induction false} FoldHarvestAuthorization(claims: Claims, execution: string, log: Log<HarvestKind>)
    requires Dense(log)
    ensures HoldsAuthorization(claims, execution, log, FoldHarvest(log))
  {
    if log != [] {
      var front, last := log[..|log| - 1], log[|log| - 1];
      FoldHarvestAuthorization(claims, execution, front);
      AuthorizationsUntouched(FoldHarvest(front), last);
      assert log == front + [last];
      hide FoldHarvestEvent, HoldsAuthorization;
      AuthorizationStep(claims, execution, front, last, FoldHarvest(front), FoldHarvest(log));
    }
  }

  ghost predicate HoldsSession(run: Id, s: Id, log: Log<HarvestKind>, session: Session) {
    && (forall n :: n in session.starts <==> 1 <= n <= |log| && log[n - 1].kind == HarvestSessionStarted(run, s))
    && (forall e :: e in session.endings <==>
          1 <= e.seqNo <= |log| && log[e.seqNo - 1].ts == e.at
          && log[e.seqNo - 1].kind in {HarvestSessionEnded(run, s), HarvestSessionSuspended(run, s)})
    && (session.suspended <==> Has(log, HarvestSessionSuspended(run, s)))
  }

  lemma TouchedSession(run: Id, s: Id, acc: HarvestFacts, e: Event<HarvestKind>)
    requires OfSession(e.kind)
    ensures var was := At(acc.sessions, (Key(run), Key(s)), NO_SESSION);
            At(FoldHarvestEvent(acc, e).sessions, (Key(run), Key(s)), NO_SESSION)
            == if e.kind.run == run && e.kind.session == s then TouchSession(was, e) else was
  {
    KeyInjective(run, e.kind.run);
    KeyInjective(s, e.kind.session);
  }

  lemma SessionStep(run: Id, s: Id, front: Log<HarvestKind>, last: Event<HarvestKind>, session: Session)
    requires last.seqNo == |front| + 1 && OfSession(last.kind) && HoldsSession(run, s, front, session)
    ensures HoldsSession(run, s, front + [last],
              if last.kind.run == run && last.kind.session == s then TouchSession(session, last) else session)
  {
    HasSnoc(front, last, HarvestSessionSuspended(run, s));
  }

  lemma SessionUnchanged(run: Id, s: Id, front: Log<HarvestKind>, last: Event<HarvestKind>, session: Session)
    requires last.seqNo == |front| + 1 && HoldsSession(run, s, front, session)
    requires !OfSession(last.kind)
    ensures HoldsSession(run, s, front + [last], session)
  {
    HasSnoc(front, last, HarvestSessionSuspended(run, s));
  }

  lemma {:induction false} FoldHarvestSession(log: Log<HarvestKind>, run: Id, s: Id)
    requires Dense(log)
    ensures HoldsSession(run, s, log, At(FoldHarvest(log).sessions, (Key(run), Key(s)), NO_SESSION))
  {
    if log != [] {
      var front, last := log[..|log| - 1], log[|log| - 1];
      FoldHarvestSession(front, run, s);
      SessionsUntouched(FoldHarvest(front), last);
      assert log == front + [last];
      hide FoldHarvestEvent, HoldsSession;
      if OfSession(last.kind) {
        TouchedSession(run, s, FoldHarvest(front), last);
        SessionStep(run, s, front, last, At(FoldHarvest(front).sessions, (Key(run), Key(s)), NO_SESSION));
      } else {
        SessionUnchanged(run, s, front, last, At(FoldHarvest(front).sessions, (Key(run), Key(s)), NO_SESSION));
      }
    }
  }

  ghost predicate ReleasedAt(execution: string, log: Log<HarvestKind>, at: Timestamp) {
    exists i :: 0 <= i < |log| && Releases(execution, log[i].kind) && log[i].ts == at
  }

  lemma ReleasedAtSnoc(execution: string, front: Log<HarvestKind>, last: Event<HarvestKind>, at: Timestamp)
    ensures ReleasedAt(execution, front + [last], at)
       <==> ReleasedAt(execution, front, at) || (Releases(execution, last.kind) && last.ts == at)
  {
    var log := front + [last];
    if ReleasedAt(execution, front, at) {
      var i :| 0 <= i < |front| && Releases(execution, front[i].kind) && front[i].ts == at;
      assert log[i] == front[i];
    }
    if Releases(execution, last.kind) && last.ts == at {
      assert log[|front|] == last;
    }
  }

  lemma {:induction false} FoldHarvestReleases(log: Log<HarvestKind>, execution: string, at: Timestamp)
    requires Dense(log)
    ensures at in At(FoldHarvest(log).releases, Key(execution), []) <==> ReleasedAt(execution, log, at)
  {
    if log != [] {
      var front, last := log[..|log| - 1], log[|log| - 1];
      FoldHarvestReleases(front, execution, at);
      ReleasesUntouched(FoldHarvest(front), last);
      assert log == front + [last];
      ReleasedAtSnoc(execution, front, last, at);
      if last.kind.Released? || last.kind.Ended? {
        KeyInjective(execution, last.kind.execution);
      }
    }
  }

  ghost predicate EndsRun(run: Id, k: HarvestKind) {
    k in {HarvestCompleted(run), HarvestEscalated(run), RecoveryExhausted(run), HarvestFailed(run, false)}
  }

  lemma {:induction false} FoldHarvestEndings(log: Log<HarvestKind>, run: Id)
    requires Dense(log)
    ensures forall e :: e in At(FoldHarvest(log).endings, Key(run), []) <==>
              1 <= e.seqNo <= |log| && EndsRun(run, log[e.seqNo - 1].kind) && log[e.seqNo - 1].ts == e.at
  {
    if log != [] {
      var last := log[|log| - 1];
      FoldHarvestEndings(log[..|log| - 1], run);
      if last.kind.HarvestCompleted? || last.kind.HarvestEscalated? || last.kind.RecoveryExhausted?
          || last.kind.HarvestFailed? {
        KeyInjective(run, last.kind.run);
      }
    }
  }

  // ----- both evaluators mean the same

  lemma BuildEndingsMean(parse: Parse, claims: Claims, log: Log<BuildKind>, now: int, endings: seq<Ending>)
    requires forall e :: e in endings <==>
               1 <= e.seqNo <= |log| && EndsBuild(claims, log[e.seqNo - 1].kind) && log[e.seqNo - 1].ts == e.at
    ensures AllAlive(parse, endings, claims.anchor, now) <==> BuildEndingsAlive(parse, claims, log, now)
    ensures (exists e :: e in endings && e.seqNo >= claims.anchor) <==> BuildEnds(claims, log)
  {
    forall i | 0 <= i < |log| && EndsBuild(claims, log[i].kind) ensures Ending(i + 1, log[i].ts) in endings {}
    if BuildEnds(claims, log) {
      var i :| 0 <= i < |log| && claims.anchor <= i + 1 && EndsBuild(claims, log[i].kind);
      assert Ending(i + 1, log[i].ts) in endings;
    }
  }

  lemma TerminalsMean(log: Log<BuildKind>, terminals: seq<Ending>)
    requires forall e :: e in terminals <==>
               1 <= e.seqNo <= |log| && IsTerminal(log[e.seqNo - 1].kind) && log[e.seqNo - 1].ts == e.at
    ensures terminals != [] <==> Terminated(log)
  {
    if terminals != [] {
      assert terminals[0] in terminals;
    }
    if Terminated(log) {
      var i :| 0 <= i < |log| && IsTerminal(log[i].kind);
      assert Ending(i + 1, log[i].ts) in terminals;
    }
  }

  /** The facts evaluator, on the facts of a build log. */
  lemma BuildFactsMean(parse: Parse, claims: Claims, log: Log<BuildKind>, now: int)
    requires Dense(log)
    ensures BuildFactsActive(parse, claims, FoldBuild(log), now) <==> BuildActive(parse, claims, log, now)
  {
    var facts := FoldBuild(log);
    var session := if claims.session.Some? then At(facts.sessions, Key(claims.session.value), NO_SESSION)
        else NO_SESSION;
    var endings := facts.terminals + session.endings;
    assert facts.lastSeq == |log| && (facts.terminals != [] <==> Terminated(log)) by {
      FoldBuildFacts(log);
      TerminalsMean(log, facts.terminals);
    }
    assert && (AllAlive(parse, endings, claims.anchor, now) <==> BuildEndingsAlive(parse, claims, log, now))
           && ((exists e :: e in endings && e.seqNo >= claims.anchor) <==> BuildEnds(claims, log)) by {
      BuildEndingsGathered(claims, log, facts, session);
      BuildEndingsMean(parse, claims, log, now, endings);
    }
    assert claims.session.Some? && 1 <= claims.anchor <= |log| ==>
      (claims.anchor in session.starts <==> log[claims.anchor - 1].kind == SessionStarted(claims.session.value)) by {
      if claims.session.Some? {
        FoldBuildSession(log, claims.session.value);
      }
    }
    hide FoldBuild, Key, At, AllAlive, BuildEndingsAlive, Terminated, BuildEnds;
  }

  /** The endings the facts evaluator gathers are the ones that end the claim. */
  lemma BuildEndingsGathered(claims: Claims, log: Log<BuildKind>, facts: BuildFacts, session: Session)
    requires Dense(log) && facts == FoldBuild(log)
    requires session == if claims.session.Some? then At(facts.sessions, Key(claims.session.value), NO_SESSION)
               else NO_SESSION
    ensures forall e :: e in facts.terminals + session.endings <==>
              1 <= e.seqNo <= |log| && EndsBuild(claims, log[e.seqNo - 1].kind) && log[e.seqNo - 1].ts == e.at
  {
    FoldBuildFacts(log);
    if claims.session.Some? {
      FoldBuildSession(log, claims.session.value);
    }
    hide FoldBuild, Key, At;
  }

  function ExecutionName(execution: Option<Id>): string {
    if execution.Some? then execution.value else "undefined"
  }

  lemma ReleasesMean(parse: Parse, execution: string, log: Log<HarvestKind>, now: int, releases: seq<Timestamp>)
    requires forall at :: at in releases <==> ReleasedAt(execution, log, at)
    ensures (forall at :: at in releases ==> Alive(parse, at, now)) <==> ReleasesAlive(parse, execution, log, now)
  {
    forall i | 0 <= i < |log| && Releases(execution, log[i].kind) ensures log[i].ts in releases {
      assert ReleasedAt(execution, log, log[i].ts);
    }
  }

  lemma HarvestEndingsMean(parse: Parse, claims: Claims, log: Log<HarvestKind>, now: int, a: int, endings: seq<Ending>)
    requires forall e :: e in endings <==>
               1 <= e.seqNo <= |log| && EndsHarvest(claims, log[e.seqNo - 1].kind) && log[e.seqNo - 1].ts == e.at
    ensures AllAlive(parse, endings, a + 1, now) <==> HarvestEndingsAlive(parse, claims, log, now, a)
  {
    forall i | 0 <= i < |log| && EndsHarvest(claims, log[i].kind) ensures Ending(i + 1, log[i].ts) in endings {}
  }

  /** The endings the facts evaluator gathers are the ones that end the claim. */
  lemma HarvestEndingsGathered(claims: Claims, log: Log<HarvestKind>, facts: HarvestFacts, session: Session)
    requires Dense(log) && facts == FoldHarvest(log)
    requires session == if claims.session.Some?
               then At(facts.sessions, (Key(claims.id), Key(claims.session.value)), NO_SESSION) else NO_SESSION
    ensures forall e :: e in At(facts.endings, Key(claims.id), []) + session.endings <==>
              1 <= e.seqNo <= |log| && EndsHarvest(claims, log[e.seqNo - 1].kind) && log[e.seqNo - 1].ts == e.at
  {
    FoldHarvestEndings(log, claims.id);
    if claims.session.Some? {
      FoldHarvestSession(log, claims.id, claims.session.value);
    }
    hide FoldHarvest, Key, At;
  }

  lemma ReleasesFolded(parse: Parse, execution: string, log: Log<HarvestKind>, now: int)
    requires Dense(log)
    ensures (forall at :: at in At(FoldHarvest(log).releases, Key(execution), []) ==> Alive(parse, at, now))
       <==> ReleasesAlive(parse, execution, log, now)
  {
    hide FoldHarvest, ReleasedAt;
    var releases := At(FoldHarvest(log).releases, Key(execution), []);
    forall at ensures at in releases <==> ReleasedAt(execution, log, at) {
      FoldHarvestReleases(log, execution, at);
    }
    ReleasesMean(parse, execution, log, now, releases);
  }

  lemma SessionFolded(claims: Claims, log: Log<HarvestKind>, session: Session)
    requires Dense(log)
    requires claims.session.Some? ==>
               session == At(FoldHarvest(log).sessions, (Key(claims.id), Key(claims.session.value)), NO_SESSION)
    ensures claims.session.Some? && 1 <= claims.anchor <= |log| ==>
              ((claims.anchor in session.starts && !session.suspended) <==>
               (log[claims.anchor - 1].kind == HarvestSessionStarted(claims.id, claims.session.value)
                && !Has(log, HarvestSessionSuspended(claims.id, claims.session.value))))
  {
    hide FoldHarvest, Has, Key;
    if claims.session.Some? {
      FoldHarvestSession(log, claims.id, claims.session.value);
    }
  }

  /** The facts evaluator, on the facts of a repository log. */
  lemma HarvestFactsMean(parse: Parse, claims: Claims, log: Log<HarvestKind>, now: int)
    requires Dense(log)
    ensures HarvestFactsActive(parse, claims, FoldHarvest(log), now)
       <==> HarvestActive(parse, claims, ExecutionName(claims.execution), log, now)
  {
    var facts := FoldHarvest(log);
    var execution := ExecutionName(claims.execution);
    var run := Key(claims.id);
    var k := (run, Key(execution));
    var session := if claims.session.Some? then At(facts.sessions, (run, Key(claims.session.value)), NO_SESSION)
        else NO_SESSION;
    var endings := At(facts.endings, run, []) + session.endings;
    hide HarvestFactsActive, HarvestActive, AllAlive, HarvestEndingsAlive, ReleasesAlive, Has;
    assert facts.lastSeq == |log| && (run in facts.runs <==> Has(log, HarvestStarted(claims.id))) by {
      FoldHarvestRuns(log, claims.id);
    }
    assert HoldsAuthorization(claims, execution, log, facts) by {
      FoldHarvestAuthorization(claims, execution, log);
    }
    ReleasesFolded(parse, execution, log, now);
    if k in facts.authorizations {
      var a := facts.authorizations[k].seqNo - 1;
      assert AllAlive(parse, endings, a + 1, now) <==> HarvestEndingsAlive(parse, claims, log, now, a) by {
        HarvestEndingsGathered(claims, log, facts, session);
        HarvestEndingsMean(parse, claims, log, now, a, endings);
      }
      SessionFolded(claims, log, session);
      SameVerdict(parse, claims, execution, log, now, facts, session, a);
    } else {
      NotAuthorized(parse, claims, log, now, facts);
    }
  }

  lemma NotAuthorized(parse: Parse, claims: Claims, log: Log<HarvestKind>, now: int, facts: HarvestFacts)
    requires var execution := ExecutionName(claims.execution);
             (Key(claims.id), Key(execution)) !in facts.authorizations
                 && HoldsAuthorization(claims, execution, log, facts)
    ensures !HarvestFactsActive(parse, claims, facts, now)
    ensures !HarvestActive(parse, claims, ExecutionName(claims.execution), log, now)
  {}

  /** Conjunct by conjunct, facts that say what the log says give the same verdict. */
  lemma SameVerdict(parse: Parse, claims: Claims, execution: string, log: Log<HarvestKind>, now: int,
                    facts: HarvestFacts, session: Session, a: int)
    requires execution == ExecutionName(claims.execution)
    requires var k := (Key(claims.id), Key(execution));
             k in facts.authorizations && a == facts.authorizations[k].seqNo - 1
                 && HoldsAuthorization(claims, execution, log, facts)
    requires facts.lastSeq == |log| && (Key(claims.id) in facts.runs <==> Has(log, HarvestStarted(claims.id)))
    requires session == if claims.session.Some?
               then At(facts.sessions, (Key(claims.id), Key(claims.session.value)), NO_SESSION) else NO_SESSION
    requires (forall at :: at in At(facts.releases, Key(execution), []) ==> Alive(parse, at, now))
               <==> ReleasesAlive(parse, execution, log, now)
    requires AllAlive(parse, At(facts.endings, Key(claims.id), []) + session.endings, a + 1, now)
       <==> HarvestEndingsAlive(parse, claims, log, now, a)
    requires claims.session.Some? && 1 <= claims.anchor <= |log| ==>
               ((claims.anchor in session.starts && !session.suspended) <==>
                (log[claims.anchor - 1].kind == HarvestSessionStarted(claims.id, claims.session.value)
                 && !Has(log, HarvestSessionSuspended(claims.id, claims.session.value))))
    ensures HarvestFactsActive(parse, claims, facts, now) <==> HarvestActive(parse, claims, execution, log, now)
  {
    OneFirstAuthorization(parse, claims, execution, log, now, a);
    hide Key, AllAlive, HarvestEndingsAlive, ReleasesAlive, Has, At, HarvestActive;
  }

  lemma OneFirstAuthorization(parse: Parse, claims: Claims, execution: string, log: Log<HarvestKind>, now: int, a: int)
    requires FirstAuthorization(claims, execution, log, a)
    ensures HarvestActive(parse, claims, execution, log, now)
       <==> HarvestActiveFrom(parse, claims, execution, log, now, a)
  {
    forall b | HarvestActiveFrom(parse, claims, execution, log, now, b) ensures a == b {}
  }

  // ----- the evaluator over the log

  datatype Status = Done | Aborted

  /** The terminal part of `reduceBuild`: the latest terminal event wins, and nothing clears it. */
  function BuildStatus(log: Log<BuildKind>): (r: Option<Status>)
    ensures r.Some? <==> Terminated(log)
  {
    if log == [] then None else
      var before := BuildStatus(log[..|log| - 1]);
      var last := log[|log| - 1].kind;
      assert forall i :: 0 <= i < |log| - 1 ==> log[..|log| - 1][i] == log[i];
      if last.BuildCompleted? then Some(Done)
      else if last.BuildAborted? then Some(Aborted)
      else before
  }

  method EvaluateBuildLifecycle(parse: Parse, claims: Claims, buildRepo: Option<Id>, log: Log<BuildKind>, now: int)
    returns (r: bool)
    requires Dense(log) && OfBuild(claims.kind)
    ensures r <==> buildRepo == Some(claims.repo) && BuildActive(parse, claims, log, now)
  {
    if buildRepo != Some(claims.repo) {
      return false;
    }
    assert 1 <= claims.anchor <= |log| ==> log[claims.anchor - 1].seqNo == claims.anchor;
    if !exists i :: 0 <= i < |log| && log[i].seqNo == claims.anchor {
      return false;
    }
    var status := BuildStatus(log);
    if claims.session.Some? && !exists i ::
        0 <= i < |log| && log[i].kind == SessionStarted(claims.session.value) && log[i].seqNo == claims.anchor {
      assert log[claims.anchor - 1].kind != SessionStarted(claims.session.value);
      return false;
    }
    var endings: seq<Ending> := [];
    for i := 0 to |log|
      invariant forall e :: e in endings <==>
                  1 <= e.seqNo <= i && claims.anchor <= e.seqNo && EndsBuild(claims, log[e.seqNo - 1].kind)
                      && log[e.seqNo - 1].ts == e.at
    {
      var e := log[i];
      if e.seqNo >= claims.anchor &&
         (e.kind.BuildCompleted? || e.kind.BuildAborted?
             || (e.kind.SessionEnded? && Some(e.kind.session) == claims.session)) {
        endings := endings + [Ending(e.seqNo, e.ts)];
      }
    }
    EndedFrom(parse, claims, log, now, endings);
    if status.Some? && endings == [] {
      return false;
    }
    r := forall e :: e in endings ==> Alive(parse, e.at, now);
  }

  lemma EndedFrom(parse: Parse, claims: Claims, log: Log<BuildKind>, now: int, endings: seq<Ending>)
    requires forall e :: e in endings <==>
               1 <= e.seqNo <= |log| && claims.anchor <= e.seqNo && EndsBuild(claims, log[e.seqNo - 1].kind)
                   && log[e.seqNo - 1].ts == e.at
    ensures endings != [] <==> BuildEnds(claims, log)
    ensures (forall e :: e in endings ==> Alive(parse, e.at, now)) <==> BuildEndingsAlive(parse, claims, log, now)
  {
    if endings != [] {
      assert endings[0] in endings;
    }
    forall i | 0 <= i < |log| && claims.anchor <= i + 1 && EndsBuild(claims, log[i].kind)
      ensures Ending(i + 1, log[i].ts) in endings
    {}
  }

  /** `events.find(...)`: the index of the first event that authorizes the execution. */
  method FindAuthorization(claims: Claims, execution: string, log: Log<HarvestKind>) returns (a: int)
    ensures a == -1 || FirstAuthorization(claims, execution, log, a)
    ensures a == -1 ==> forall i :: 0 <= i < |log| ==> !Authorizes(claims, execution, log[i].kind)
  {
    for i := 0 to |log|
      invariant forall j :: 0 <= j < i ==> !Authorizes(claims, execution, log[j].kind)
    {
      var k := log[i].kind;
      if k.Authorized? && k.run == claims.id && k.execution == execution {
        return i;
      }
    }
    a := -1;
  }

  method EvaluateHarvestLifecycle(parse: Parse, claims: Claims, log: Log<HarvestKind>, now: int) returns (r: bool)
    requires Dense(log) && !OfBuild(claims.kind)
    ensures r <==> claims.execution.Some? && HarvestActive(parse, claims, claims.execution.value, log, now)
  {
    hide Has, ReleasesAlive, HarvestEndingsAlive;
    if claims.session.Some? {
      var suspended := HasKind(log, HarvestSessionSuspended(claims.id, claims.session.value));
      if suspended {
        return false;
      }
    }
    var run := HasKind(log, HarvestStarted(claims.id));
    if !run || claims.execution.None? {
      return false;
    }
    var execution := claims.execution.value;
    var a := FindAuthorization(claims, execution, log);
    if a == -1 || !(1 <= claims.anchor <= |log|) {
      return false;
    }
    OneFirstAuthorization(parse, claims, execution, log, now, a);
    if claims.kind.HarvestRunner?
        && (claims.anchor != log[a].seqNo || claims.leaseHolder != Some(log[a].kind.leaseHolder)) {
      return false;
    }
    var released := AllReleasesAlive(parse, execution, log, now);
    if claims.session.Some? && log[claims.anchor - 1].kind != HarvestSessionStarted(claims.id, claims.session.value) {
      return false;
    }
    var ended := AllHarvestEndingsAlive(parse, claims, log, now, a);
    r := released && ended;
  }

  method HasKind<K(==)>(log: Log<K>, kind: K) returns (r: bool)
    ensures r <==> Has(log, kind)
  {
    for i := 0 to |log|
      invariant forall j :: 0 <= j < i ==> log[j].kind != kind
    {
      if log[i].kind == kind {
        return true;
      }
    }
    r := false;
  }

  method AllReleasesAlive(parse: Parse, execution: string, log: Log<HarvestKind>, now: int) returns (r: bool)
    ensures r <==> ReleasesAlive(parse, execution, log, now)
  {
    var endings: seq<Timestamp> := [];
    for i := 0 to |log|
      invariant (forall at :: at in endings ==> Alive(parse, at, now))
           <==> (forall j :: 0 <= j < i && Releases(execution, log[j].kind) ==> Alive(parse, log[j].ts, now))
    {
      var k := log[i].kind;
      if (k.Released? && k.execution == execution) || (k.Ended? && k.execution == execution) {
        endings := endings + [log[i].ts];
      }
    }
    r := forall at :: at in endings ==> Alive(parse, at, now);
  }

  method AllHarvestEndingsAlive(parse: Parse, claims: Claims, log: Log<HarvestKind>, now: int, a: nat) returns (r: bool)
    requires Dense(log) && a < |log|
    ensures r <==> HarvestEndingsAlive(parse, claims, log, now, a)
  {
    var endings: seq<Timestamp> := [];
    for i := 0 to |log|
      invariant (forall at :: at in endings ==> Alive(parse, at, now))
           <==> (forall j :: 0 <= j < i && a <= j && EndsHarvest(claims, log[j].kind) ==> Alive(parse, log[j].ts, now))
    {
      var e := log[i];
      if e.seqNo >= log[a].seqNo && Closes(claims, e.kind) {
        endings := endings + [e.ts];
      }
    }
    r := forall at :: at in endings ==> Alive(parse, at, now);
  }

  /** The chain of event types that end a harvest claim. */
  predicate Closes(claims: Claims, k: HarvestKind)
    ensures Closes(claims, k) <==> EndsHarvest(claims, k)
  {
    match k
    case HarvestCompleted(run) => run == claims.id
    case HarvestEscalated(run) => run == claims.id
    case HarvestFailed(run, willRetry) => run == claims.id && !willRetry
    case RecoveryExhausted(run) => run == claims.id
    case HarvestSessionEnded(run, s) => run == claims.id && claims.session == Some(s)
    case HarvestSessionSuspended(run, s) => run == claims.id && claims.session == Some(s)
    case _ => false
  }

  // ----- the two agree

  /** For every build claim and log the indexed evaluator and the log evaluator agree; both put the
      same check of the repository first. */
  method CheckBuildAgreement(parse: Parse, claims: Claims, buildRepo: Option<Id>, log: Log<BuildKind>, now: int)
    returns (indexed: bool, replayed: bool)
    requires Dense(log) && OfBuild(claims.kind)
    ensures indexed == replayed
  {
    indexed := buildRepo == Some(claims.repo) && BuildFactsActive(parse, claims, FoldBuild(log), now);
    replayed := EvaluateBuildLifecycle(parse, claims, buildRepo, log, now);
    BuildFactsMean(parse, claims, log, now);
  }

  ghost predicate HarvestReplayed(parse: Parse, claims: Claims, log: Log<HarvestKind>, now: int) {
    claims.execution.Some? && HarvestActive(parse, claims, claims.execution.value, log, now)
  }

  ghost predicate HarvestAgrees(parse: Parse, claims: Claims, log: Log<HarvestKind>, now: int) {
    HarvestFactsActive(parse, claims, FoldHarvest(log), now) <==> HarvestReplayed(parse, claims, log, now)
  }

  /** The claim names its execution, or has an anchor no log reaches, or is a runner's that could not
      be its own authorization: without a lease holder, or with a session. */
  predicate HasOneReading(claims: Claims) {
    || claims.execution.Some?
    || claims.anchor < 1
    || (claims.kind.HarvestRunner? && (claims.leaseHolder.None? || claims.session.Some?))
  }

  /** A log, as long as the anchor asks, that authorizes an execution named "undefined". */
  function LogOfUndefined(claims: Claims): (log: Log<HarvestKind>)
    requires !HasOneReading(claims)
    ensures Dense(log)
  {
    var holder := if claims.leaseHolder.Some? then claims.leaseHolder.value else "holder";
    var authorized := Authorized(claims.id, "undefined", holder);
    var anchored := if claims.kind.HarvestRunner? then authorized
                    else if claims.session.Some? then HarvestSessionStarted(claims.id, claims.session.value)
                    else OtherHarvest;
    seq(claims.anchor + 2, i requires 0 <= i < claims.anchor + 2 =>
      Event(i + 1, "t", if i == claims.anchor - 1 then anchored
                        else if i == claims.anchor then HarvestStarted(claims.id)
                        else if i == claims.anchor + 1 then authorized
                        else OtherHarvest))
  }

  /** Where that log first authorizes it. */
  function AuthorizedAt(claims: Claims): int {
    if claims.kind.HarvestRunner? then claims.anchor - 1 else claims.anchor + 1
  }

  lemma UndefinedEvents(claims: Claims, i: nat)
    requires !HasOneReading(claims) && i < |LogOfUndefined(claims)|
    ensures var k := LogOfUndefined(claims)[i].kind;
            && !Releases("undefined", k) && !EndsHarvest(claims, k) && !k.HarvestSessionSuspended?
            && (i < AuthorizedAt(claims) ==> !Authorizes(claims, "undefined", k))
  {}

  lemma UndefinedIsActive(parse: Parse, claims: Claims)
    requires !HasOneReading(claims)
    ensures HarvestActive(parse, claims, "undefined", LogOfUndefined(claims), 0)
  {
    var log, a := LogOfUndefined(claims), AuthorizedAt(claims);
    assert log[claims.anchor].kind == HarvestStarted(claims.id);
    assert claims.session.Some? ==>
        log[claims.anchor - 1].kind == HarvestSessionStarted(claims.id, claims.session.value);
    assert Authorizes(claims, "undefined", log[a].kind);
    assert claims.kind.HarvestRunner? ==> claims.leaseHolder == Some(log[a].kind.leaseHolder);
    assert |log| == claims.anchor + 2;
    hide LogOfUndefined, Releases, EndsHarvest, Authorizes;
    forall i: nat | i < |log|
      ensures !Releases("undefined", log[i].kind) && !EndsHarvest(claims, log[i].kind)
      ensures !log[i].kind.HarvestSessionSuspended?
      ensures i < a ==> !Authorizes(claims, "undefined", log[i].kind)
    {
      UndefinedEvents(claims, i);
    }
    assert HarvestActiveFrom(parse, claims, "undefined", log, 0, a);
  }

  lemma OneReadingAgrees(parse: Parse, claims: Claims, log: Log<HarvestKind>, now: int)
    requires Dense(log) && HasOneReading(claims)
    ensures HarvestAgrees(parse, claims, log, now)
  {
    HarvestFactsMean(parse, claims, log, now);
    hide FoldHarvest, HarvestFactsActive, Has, ReleasesAlive, HarvestEndingsAlive;
  }

  /** For a harvest claim the two evaluators agree over every log at every time exactly when the claim
      has one reading. */
  lemma HarvestAgreement(parse: Parse, claims: Claims)
    ensures (forall log, now :: Dense(log) ==> HarvestAgrees(parse, claims, log, now)) <==> HasOneReading(claims)
  {
    if HasOneReading(claims) {
      forall log, now | Dense(log) ensures HarvestAgrees(parse, claims, log, now) {
        OneReadingAgrees(parse, claims, log, now);
      }
    } else {
      var log := LogOfUndefined(claims);
      UndefinedIsActive(parse, claims);
      HarvestFactsMean(parse, claims, log, 0);
      hide HarvestFactsActive, HarvestActive, LogOfUndefined;
      assert !HarvestAgrees(parse, claims, log, 0);
    }
  }

  /** The case where they differ: a session's claim without an execution, in a log that authorizes
      an execution named "undefined". */
  lemma HarvestDisagreement(parse: Parse, log: Log<HarvestKind>, now: int)
    requires log == [Event(1, "t", HarvestStarted("run")), Event(2, "t", Authorized("run", "undefined", "holder")),
                     Event(3, "t", HarvestSessionStarted("run", "session"))]
    ensures var claims := Claims(HarvestPhase, "repo", "run", 3, Some("session"), None, None);
            HarvestFactsActive(parse, claims, FoldHarvest(log), now) && !HarvestReplayed(parse, claims, log, now)
  {
    var claims := Claims(HarvestPhase, "repo", "run", 3, Some("session"), None, None);
    assert log[0].kind == HarvestStarted("run");
    assert HarvestActiveFrom(parse, claims, "undefined", log, now, 1);
    HarvestFactsMean(parse, claims, log, now);
  }

  // ----- a durable ending cannot be undone

  /** Once active at some prefix and time, and inactive at a later prefix and time, a build
      delegation is inactive at every later extension and time. */
  lemma BuildEndingDurable(parse: Parse, claims: Claims, log: Log<BuildKind>, m: nat, n: nat, t0: int, t1: int, t2: int)
    requires m <= n <= |log| && t1 <= t2
    requires BuildActive(parse, claims, log[..m], t0) && !BuildActive(parse, claims, log[..n], t1)
    ensures !BuildActive(parse, claims, log, t2)
  {
    if Terminated(log[..n]) {
      var i :| 0 <= i < n && IsTerminal(log[..n][i].kind);
      if i < m {
        assert IsTerminal(log[..m][i].kind);
        var j :| 0 <= j < m && claims.anchor <= j + 1 && EndsBuild(claims, log[..m][j].kind);
        assert EndsBuild(claims, log[..n][j].kind);
      } else {
        assert EndsBuild(claims, log[..n][i].kind);
      }
      assert BuildEnds(claims, log[..n]);
    }
    assert log[..n][claims.anchor - 1] == log[..m][claims.anchor - 1];
    var k :| 0 <= k < n && claims.anchor <= k + 1 && EndsBuild(claims, log[..n][k].kind)
        && !WithinGrace(parse, log[..n][k].ts, t1);
    assert log[k] == log[..n][k] && !WithinGrace(parse, log[k].ts, t2);
  }

  lemma HarvestEndingDurable(parse: Parse, claims: Claims, execution: string, log: Log<HarvestKind>, m: nat, n: nat,
                             t0: int, t1: int, t2: int)
    requires m <= n <= |log| && t1 <= t2
    requires HarvestActive(parse, claims, execution, log[..m], t0)
               && !HarvestActive(parse, claims, execution, log[..n], t1)
    ensures !HarvestActive(parse, claims, execution, log, t2)
  {
    var a :| HarvestActiveFrom(parse, claims, execution, log[..m], t0, a);
    FirstStays(claims, execution, log[..n], m, a);
    FirstStays(claims, execution, log, m, a);
    assert log[..n][..m] == log[..m];
    OneFirstAuthorization(parse, claims, execution, log[..n], t1, a);
    OneFirstAuthorization(parse, claims, execution, log, t2, a);
    HasStays(log[..n], m, HarvestStarted(claims.id));
    if claims.session.Some? {
      HasStays(log, n, HarvestSessionSuspended(claims.id, claims.session.value));
    }
    assert log[..n][a] == log[..m][a] == log[a];
    assert log[..n][claims.anchor - 1] == log[..m][claims.anchor - 1];
    if HarvestActive(parse, claims, execution, log, t2) {
      forall i | 0 <= i < n
          && (Releases(execution, log[..n][i].kind) || (a <= i && EndsHarvest(claims, log[..n][i].kind)))
        ensures WithinGrace(parse, log[..n][i].ts, t1)
      {
        assert log[i] == log[..n][i] && WithinGrace(parse, log[i].ts, t2);
      }
      assert false;
    }
  }

  /** The same, for what `delegationActive` answers from the facts. */
  lemma DelegationEndingDurable(parse: Parse, claims: Claims, builds: Log<BuildKind>, repository: Log<HarvestKind>,
                                m: nat, n: nat, t0: int, t1: int, t2: int)
    requires Dense(builds) && Dense(repository) && m <= n && t1 <= t2
    ensures n <= |builds| && BuildFactsActive(parse, claims, FoldBuild(builds[..m]), t0)
              && !BuildFactsActive(parse, claims, FoldBuild(builds[..n]), t1)
            ==> !BuildFactsActive(parse, claims, FoldBuild(builds), t2)
    ensures n <= |repository| && HarvestFactsActive(parse, claims, FoldHarvest(repository[..m]), t0)
              && !HarvestFactsActive(parse, claims, FoldHarvest(repository[..n]), t1)
            ==> !HarvestFactsActive(parse, claims, FoldHarvest(repository), t2)
  {
    hide BuildFactsActive, HarvestFactsActive, BuildActive, HarvestActive;
    if n <= |builds| {
      BuildFactsMean(parse, claims, builds[..m], t0);
      BuildFactsMean(parse, claims, builds[..n], t1);
      BuildFactsMean(parse, claims, builds, t2);
      if BuildActive(parse, claims, builds[..m], t0) && !BuildActive(parse, claims, builds[..n], t1) {
        BuildEndingDurable(parse, claims, builds, m, n, t0, t1, t2);
      }
    }
    if n <= |repository| {
      var execution := ExecutionName(claims.execution);
      HarvestFactsMean(parse, claims, repository[..m], t0);
      HarvestFactsMean(parse, claims, repository[..n], t1);
      HarvestFactsMean(parse, claims, repository, t2);
      if HarvestActive(parse, claims, execution, repository[..m], t0)
          && !HarvestActive(parse, claims, execution, repository[..n], t1) {
        HarvestEndingDurable(parse, claims, execution, repository, m, n, t0, t1, t2);
      }
    }
  }

  /** `later` is the store after more has happened. */
  ghost predicate Extends(store: Store, later: Store, claims: Claims) {
    && store.builds(claims.id) <= later.builds(claims.id)
    && store.repositories(claims.repo) <= later.repositories(claims.repo)
    && later.buildRepo(claims.id) == store.buildRepo(claims.id)
  }

  /** The same, for `delegationActive` itself: over stores whose logs extend one another and whose build
      stays with its repository, what was active and then was not is never active again. */
  lemma ActiveEndingDurable(parse: Parse, claims: Claims, s0: Store, s1: Store, s2: Store, t0: int, t1: int, t2: int)
    requires Dense(s2.builds(claims.id)) && Dense(s2.repositories(claims.repo))
    requires Extends(s0, s1, claims) && Extends(s1, s2, claims) && t1 <= t2
    requires Active(parse, s0, claims, t0) && !Active(parse, s1, claims, t1)
    ensures !Active(parse, s2, claims, t2)
  {
    hide BuildFactsActive, HarvestFactsActive;
    var builds, repository := s2.builds(claims.id), s2.repositories(claims.repo);
    if OfBuild(claims.kind) {
      var m, n := |s0.builds(claims.id)|, |s1.builds(claims.id)|;
      assert builds[..m] == s0.builds(claims.id) && builds[..n] == s1.builds(claims.id);
      DelegationEndingDurable(parse, claims, builds, repository, m, n, t0, t1, t2);
    } else {
      var m, n := |s0.repositories(claims.repo)|, |s1.repositories(claims.repo)|;
      assert repository[..m] == s0.repositories(claims.repo) && repository[..n] == s1.repositories(claims.repo);
      DelegationEndingDurable(parse, claims, builds, repository, m, n, t0, t1, t2);
    }
  }

  lemma FirstStays(claims: Claims, execution: string, log: Log<HarvestKind>, m: nat, a: int)
    requires m <= |log| && FirstAuthorization(claims, execution, log[..m], a)
    ensures FirstAuthorization(claims, execution, log, a)
  {
    assert forall i :: 0 <= i < m ==> log[..m][i] == log[i];
  }

  lemma HasStays<K>(log: Log<K>, m: nat, kind: K)
    requires m <= |log|
    ensures Has(log[..m], kind) ==> Has(log, kind)
  {
    if Has(log[..m], kind) {
      var i :| 0 <= i < m && log[..m][i].kind == kind;
      assert log[i].kind == kind;
    }
  }

  // ----- minting

  /** Who asks. An internal operator, a registered project's credential or an administrator, or a
      holder of an earlier delegation. */
  datatype Principal = Internal(repo: Id) | Project(repo: Id) | Admin | Delegated(delegation: Claims)

  datatype Target =
    | ToBuildRunner(id: Id)
    | ToBuildPhase(id: Id, session: Id)
    | ToHarvestRunner(id: Id, repo: Id, execution: Id, leaseHolder: Id)
    | ToHarvestPhase(id: Id, repo: Id, session: Id)

  datatype Store = Store(buildRepo: Id -> Option<Id>, leaseHolder: Id -> Option<Id>,
                         builds: Id -> Log<BuildKind>, repositories: Id -> Log<HarvestKind>)

  datatype MintError = Unavailable | WrongProject | Forbidden | CannotWiden | NotLeaseHolder | PredatesRunner | Unbound
      | EndedAlready

  function KindOf(t: Target): ClaimKind {
    match t
    case ToBuildRunner(_) => BuildRunner
    case ToBuildPhase(_, _) => BuildPhase
    case ToHarvestRunner(_, _, _, _) => HarvestRunner
    case ToHarvestPhase(_, _, _) => HarvestPhase
  }

  predicate Admits(p: Principal, repo: Id) {
    match p
    case Admin => true
    case Delegated(d) => d.repo == repo
    case _ => p.repo == repo
  }

  /** A delegate may only hand down from a runner to a phase of the same build or run. */
  predicate MayDelegate(parent: Claims, t: Target) {
    && (parent.kind.BuildRunner? || parent.kind.HarvestRunner?)
    && (t.ToBuildPhase? || t.ToHarvestPhase?)
    && parent.id == t.id && OfBuild(parent.kind) == OfBuild(KindOf(t))
  }

  function RepoOf(store: Store, t: Target): Option<Id> {
    if OfBuild(KindOf(t)) then store.buildRepo(t.id) else Some(t.repo)
  }

  function FirstStart(session: Session): Option<int> {
    if session.starts == [] then None else Some(session.starts[0])
  }

  function AnchorOf(store: Store, t: Target, repo: Id): Option<int> {
    match t
    case ToBuildRunner(id) => var n := FoldBuild(store.builds(id)).lastSeq; if n == 0 then None else Some(n)
    case ToBuildPhase(id, s) => FirstStart(At(FoldBuild(store.builds(id)).sessions, Key(s), NO_SESSION))
    case ToHarvestRunner(id, _, execution, _) =>
      var k := (Key(id), Key(execution));
      var authorizations := FoldHarvest(store.repositories(repo)).authorizations;
      if k in authorizations then Some(authorizations[k].seqNo) else None
    case ToHarvestPhase(id, _, s) => FirstStart(At(FoldHarvest(store.repositories(repo)).sessions, (Key(id), Key(s)),
                                                   NO_SESSION))
  }

  /** `delegationActive`. */
  predicate Active(parse: Parse, store: Store, claims: Claims, now: int) {
    if OfBuild(claims.kind) then
      store.buildRepo(claims.id) == Some(claims.repo)
          && BuildFactsActive(parse, claims, FoldBuild(store.builds(claims.id)), now)
    else HarvestFactsActive(parse, claims, FoldHarvest(store.repositories(claims.repo)), now)
  }

  /** The handler's checks, in order. */
  function Mint(parse: Parse, store: Store, p: Principal, t: Target, now: int): Result<Claims, MintError> {
    var repo := RepoOf(store, t);
    if repo.None? then Err(Unavailable)
    else if !Admits(p, repo.value) then Err(WrongProject)
    else if p.Internal? then Err(Forbidden)
    else if p.Delegated? && !MayDelegate(p.delegation, t) then Err(CannotWiden)
    else if t.ToHarvestRunner? && store.leaseHolder(repo.value) != Some(t.leaseHolder) then Err(NotLeaseHolder)
    else
      var execution := if t.ToHarvestRunner? then Some(t.execution) else if p.Delegated? then p.delegation.execution
          else None;
      var anchor := AnchorOf(store, t, repo.value);
      if p.Delegated? && anchor.Some? && anchor.value < p.delegation.anchor then Err(PredatesRunner)
      else if anchor.None? then Err(Unbound)
      else
        var session := if t.ToBuildPhase? || t.ToHarvestPhase? then Some(t.session) else None;
        var holder := if t.ToHarvestRunner? then Some(t.leaseHolder) else None;
        var claims := Claims(KindOf(t), repo.value, t.id, anchor.value, session, execution, holder);
        if Active(parse, store, claims, now) then Ok(claims) else Err(EndedAlready)
  }

  // ----- what is minted

  /** Event `n`, counted from one, is the first of its kind. */
  ghost predicate IsFirst<K>(log: Log<K>, kind: K, n: int) {
    1 <= n <= |log| && log[n - 1].kind == kind && forall i :: 0 <= i < n - 1 ==> log[i].kind != kind
  }

  ghost predicate StartsAt<K>(log: Log<K>, kind: K, starts: seq<int>) {
    if starts == [] then !Has(log, kind) else IsFirst(log, kind, starts[0])
  }

  lemma StartsStep<K>(front: Log<K>, last: Event<K>, kind: K, starts: seq<int>)
    requires last.seqNo == |front| + 1 && StartsAt(front, kind, starts)
    ensures StartsAt(front + [last], kind, if last.kind == kind then starts + [last.seqNo] else starts)
  {
    HasSnoc(front, last, kind);
  }

  /** The first start a build's facts hold for a session is the first in the log. */
  lemma {:induction false} FoldBuildStart(log: Log<BuildKind>, s: Id)
    requires Dense(log)
    ensures StartsAt(log, SessionStarted(s), At(FoldBuild(log).sessions, Key(s), NO_SESSION).starts)
  {
    if log != [] {
      var front, last := log[..|log| - 1], log[|log| - 1];
      FoldBuildStart(front, s);
      StartsStep(front, last, SessionStarted(s), At(FoldBuild(front).sessions, Key(s), NO_SESSION).starts);
      assert log == front + [last];
      if last.kind.SessionStarted? || last.kind.SessionEnded? {
        KeyInjective(s, last.kind.session);
      }
      hide StartsAt;
    }
  }

  lemma {:induction false} FoldHarvestStart(log: Log<HarvestKind>, run: Id, s: Id)
    requires Dense(log)
    ensures StartsAt(log, HarvestSessionStarted(run, s),
                     At(FoldHarvest(log).sessions, (Key(run), Key(s)), NO_SESSION).starts)
  {
    if log != [] {
      var front, last := log[..|log| - 1], log[|log| - 1];
      var was := At(FoldHarvest(front).sessions, (Key(run), Key(s)), NO_SESSION);
      FoldHarvestStart(front, run, s);
      StartsStep(front, last, HarvestSessionStarted(run, s), was.starts);
      SessionsUntouched(FoldHarvest(front), last);
      assert log == front + [last];
      hide FoldHarvestEvent, StartsAt;
      if OfSession(last.kind) {
        TouchedSession(run, s, FoldHarvest(front), last);
      }
    }
  }

  /** What a target is anchored at: a build's latest event, the first start of the phase's session, or
      the first authorization of the run's execution. */
  ghost predicate IsAnchor(store: Store, t: Target, repo: Id, n: int) {
    var builds, repository := store.builds(t.id), store.repositories(repo);
    match t
    case ToBuildRunner(_) => n == |builds| > 0
    case ToBuildPhase(_, s) => IsFirst(builds, SessionStarted(s), n)
    case ToHarvestPhase(id, _, s) => IsFirst(repository, HarvestSessionStarted(id, s), n)
    case ToHarvestRunner(id, _, execution, _) => IsFirstAuthorization(repository, id, execution, n)
  }

  ghost predicate IsAuthorization(k: HarvestKind, run: Id, execution: Id) {
    k.Authorized? && k.run == run && k.execution == execution
  }

  ghost predicate IsFirstAuthorization(log: Log<HarvestKind>, id: Id, execution: Id, n: int) {
    && 1 <= n <= |log| && IsAuthorization(log[n - 1].kind, id, execution)
    && forall i :: 0 <= i < n - 1 ==> !IsAuthorization(log[i].kind, id, execution)
  }

  lemma FirstStartMeans<K>(log: Log<K>, kind: K, session: Session, n: int)
    requires StartsAt(log, kind, session.starts)
    ensures FirstStart(session) == Some(n) <==> IsFirst(log, kind, n)
  {
    if IsFirst(log, kind, n) {
      assert log[n - 1].kind == kind;
    }
  }

  lemma AnchorMeans(store: Store, t: Target, repo: Id, n: int)
    requires Dense(store.builds(t.id)) && Dense(store.repositories(repo))
    ensures AnchorOf(store, t, repo) == Some(n) <==> IsAnchor(store, t, repo, n)
  {
    var builds, repository := store.builds(t.id), store.repositories(repo);
    hide FoldBuild, FoldHarvest, Key, At, StartsAt, IsFirst, FirstStart, IsFirstAuthorization;
    match t
    case ToBuildRunner(id) =>
      FoldBuildFacts(builds);
    case ToBuildPhase(id, s) =>
      FoldBuildStart(builds, s);
      FirstStartMeans(builds, SessionStarted(s), At(FoldBuild(builds).sessions, Key(s), NO_SESSION), n);
    case ToHarvestPhase(id, _, s) =>
      FoldHarvestStart(repository, id, s);
      FirstStartMeans(repository, HarvestSessionStarted(id, s),
                      At(FoldHarvest(repository).sessions, (Key(id), Key(s)), NO_SESSION), n);
    case ToHarvestRunner(id, _, execution, _) =>
      AuthorizationAnchor(repository, id, execution, n);
  }

  lemma AuthorizationAnchor(log: Log<HarvestKind>, id: Id, execution: Id, n: int)
    requires Dense(log)
    ensures var k, held := (Key(id), Key(execution)), FoldHarvest(log).authorizations;
            k in held && held[k].seqNo == n <==> IsFirstAuthorization(log, id, execution, n)
  {
    var claims := Claims(HarvestRunner, id, id, 0, None, None, None);
    var facts := FoldHarvest(log);
    FoldHarvestAuthorization(claims, execution, log);
    hide FoldHarvest, Key;
    assert forall k :: Authorizes(claims, execution, k) <==> IsAuthorization(k, id, execution);
    if (Key(id), Key(execution)) in facts.authorizations {
      SameFirst(claims, execution, log, facts.authorizations[(Key(id), Key(execution))].seqNo, n);
    }
  }

  lemma SameFirst(claims: Claims, execution: Id, log: Log<HarvestKind>, m: int, n: int)
    requires FirstAuthorization(claims, execution, log, m - 1)
    ensures m == n <==> IsFirstAuthorization(log, claims.id, execution, n)
  {
    assert IsAuthorization(log[m - 1].kind, claims.id, execution);
    if IsFirstAuthorization(log, claims.id, execution, n) {
      assert Authorizes(claims, execution, log[n - 1].kind);
    }
  }

  /** Who may have these claims for that target. Nobody internal; a project or a delegate only within
      its repository; a delegate only from a runner to a phase of its own build or run that began no
      earlier than it; and a harvest runner only for the holder of the repository's lease. */
  ghost predicate MayHave(store: Store, p: Principal, t: Target, claims: Claims) {
    && !p.Internal? && (p.Project? ==> p.repo == claims.repo)
    && (p.Delegated? ==>
          && p.delegation.repo == claims.repo && p.delegation.id == claims.id && p.delegation.anchor <= claims.anchor
          && ((p.delegation.kind.BuildRunner? && claims.kind.BuildPhase?)
              || (p.delegation.kind.HarvestRunner? && claims.kind.HarvestPhase?)))
    && (claims.kind.HarvestRunner? ==> store.leaseHolder(claims.repo) == claims.leaseHolder)
  }

  /** The claims say what the target asks for. A phase inherits the execution of the runner that
      delegates to it. */
  ghost predicate ClaimsFor(store: Store, p: Principal, t: Target, claims: Claims) {
    && claims.id == t.id && IsAnchor(store, t, claims.repo, claims.anchor)
    && var inherited := if p.Delegated? then p.delegation.execution else None;
       match t
       case ToBuildRunner(id) =>
         store.buildRepo(id) == Some(claims.repo) && claims.kind == BuildRunner
             && (claims.session, claims.execution, claims.leaseHolder) == (None, inherited, None)
       case ToBuildPhase(id, s) =>
         store.buildRepo(id) == Some(claims.repo) && claims.kind == BuildPhase
             && (claims.session, claims.execution, claims.leaseHolder) == (Some(s), inherited, None)
       case ToHarvestRunner(_, repo, execution, holder) =>
         claims.repo == repo && claims.kind == HarvestRunner
             && (claims.session, claims.execution, claims.leaseHolder) == (None, Some(execution), Some(holder))
       case ToHarvestPhase(_, repo, s) =>
         claims.repo == repo && claims.kind == HarvestPhase
             && (claims.session, claims.execution, claims.leaseHolder) == (Some(s), inherited, None)
  }

  /** Live by the log. */
  ghost predicate IsLive(parse: Parse, store: Store, claims: Claims, now: int) {
    if claims.kind.BuildRunner? || claims.kind.BuildPhase? then
      store.buildRepo(claims.id) == Some(claims.repo) && BuildActive(parse, claims, store.builds(claims.id), now)
    else
      HarvestActive(parse, claims, if claims.execution.Some? then claims.execution.value else "undefined",
                    store.repositories(claims.repo), now)
  }

  lemma ActiveMeans(parse: Parse, store: Store, claims: Claims, now: int)
    requires Dense(store.builds(claims.id)) && Dense(store.repositories(claims.repo))
    ensures Active(parse, store, claims, now) <==> IsLive(parse, store, claims, now)
  {
    hide BuildFactsActive, HarvestFactsActive, BuildActive, HarvestActive;
    BuildFactsMean(parse, claims, store.builds(claims.id), now);
    HarvestFactsMean(parse, claims, store.repositories(claims.repo), now);
  }

  /** A credential is minted exactly for who may have it, with exactly the claims its target asks
      for, over logs by which those claims are live. */
  lemma MintedIff(parse: Parse, store: Store, p: Principal, t: Target, now: int, claims: Claims)
    requires Dense(store.builds(t.id)) && forall repo :: Dense(store.repositories(repo))
    ensures Mint(parse, store, p, t, now) == Ok(claims)
       <==> MayHave(store, p, t, claims) && ClaimsFor(store, p, t, claims) && IsLive(parse, store, claims, now)
  {
    hide Active, IsLive, AnchorOf, IsAnchor;
    AnchorMeans(store, t, claims.repo, claims.anchor);
    if claims.id == t.id {
      ActiveMeans(parse, store, claims, now);
    }
  }

  ghost predicate IsHarvest(t: Target) { t.ToHarvestRunner? || t.ToHarvestPhase? }

  /** A runner's claims, over the build or run of a phase. */
  ghost predicate HandsDown(parent: Claims, t: Target) {
    parent.id == t.id && ((parent.kind.BuildRunner? && t.ToBuildPhase?)
        || (parent.kind.HarvestRunner? && t.ToHarvestPhase?))
  }

  /** Which refusal each other request meets: the first reason there is, in the order of the clauses. */
  lemma RefusedIff(parse: Parse, store: Store, p: Principal, t: Target, now: int, repo: Id)
    requires Dense(store.builds(t.id)) && Dense(store.repositories(repo))
    requires if IsHarvest(t) then t.repo == repo else store.buildRepo(t.id) == Some(repo)
    ensures var minted := Mint(parse, store, p, t, now);
            var belongs := p.Admin? || p == Project(repo) || (p.Delegated? && p.delegation.repo == repo);
            var mayAsk := belongs && (p.Delegated? ==> HandsDown(p.delegation, t));
            var holds := t.ToHarvestRunner? ==> store.leaseHolder(repo) == Some(t.leaseHolder);
            && (minted == Err(WrongProject) <==> !belongs && p != Internal(repo))
            && (minted == Err(Forbidden) <==> p == Internal(repo))
            && (minted == Err(CannotWiden) <==> belongs && !mayAsk)
            && (minted == Err(NotLeaseHolder) <==> mayAsk && !holds)
            && (minted == Err(Unbound) <==> mayAsk && holds && forall n :: !IsAnchor(store, t, repo, n))
            && (minted == Err(PredatesRunner) <==>
                  mayAsk && p.Delegated? && exists n :: IsAnchor(store, t, repo, n) && n < p.delegation.anchor)
  {
    hide Active, AnchorOf, IsAnchor;
    forall n ensures AnchorOf(store, t, repo) == Some(n) <==> IsAnchor(store, t, repo, n) {
      AnchorMeans(store, t, repo, n);
    }
  }

  lemma UnknownIff(parse: Parse, store: Store, p: Principal, t: Target, now: int)
    ensures Mint(parse, store, p, t, now) == Err(Unavailable) <==> !IsHarvest(t) && store.buildRepo(t.id).None?
  {}

  /** A chain of grants: the first from a credential of the project, each other from the one before
      it, at times of its own and over a store that may have moved on. */
  datatype Grant = Grant(store: Store, target: Target, now: int)

  ghost predicate IsChain(parse: Parse, p: Principal, grants: seq<Grant>, minted: seq<Claims>)
    decreases |grants|
  {
    if grants == [] then minted == [] else
      && minted != []
      && Mint(parse, grants[0].store, p, grants[0].target, grants[0].now) == Ok(minted[0])
      && IsChain(parse, Delegated(minted[0]), grants[1..], minted[1..])
  }

  /** Delegation never widens: a chain from anyone has at most two grants, its second stays with the
      repository and the build or run of the first, at an anchor no earlier, and every grant was
      active when it was made. */
  lemma ChainNeverWidens(parse: Parse, p: Principal, grants: seq<Grant>, minted: seq<Claims>)
    requires IsChain(parse, p, grants, minted)
    ensures |minted| == |grants| <= if p.Delegated? then 1 else 2
    ensures forall i :: 0 <= i < |grants| ==> Active(parse, grants[i].store, minted[i], grants[i].now)
    ensures forall i :: 0 <= i < |minted| ==> Admits(p, minted[i].repo)
    ensures |grants| == 2 ==>
              && minted[1].repo == minted[0].repo && minted[1].id == minted[0].id
              && OfBuild(minted[1].kind) == OfBuild(minted[0].kind)
              && minted[0].kind in {BuildRunner, HarvestRunner} && minted[1].kind in {BuildPhase, HarvestPhase}
              && minted[1].anchor >= minted[0].anchor && minted[1].execution == minted[0].execution
    decreases |grants|
  {
    hide Active, AnchorOf;
    if grants != [] {
      ChainNeverWidens(parse, Delegated(minted[0]), grants[1..], minted[1..]);
      forall i | 0 <= i < |grants| ensures Active(parse, grants[i].store, minted[i], grants[i].now) {
        if i > 0 {
          assert grants[i] == grants[1..][i - 1] && minted[i] == minted[1..][i - 1];
        }
      }
    }
  }
}
