/** `trackerFixture` of web-dashboard-dev-tracker.ts: real tickets get fixture ids, their blockers are
    renumbered with them, and they are put in an order that creates blockers first. */
module TrackerOrder {
  import opened Wrappers
  import opened LayeredOrder
  import opened Decimal

  datatype Ticket = Ticket(id: string, blockedBy: seq<string>)

  /** A replayed build: the fixture id and the real ticket that takes its place. */
  datatype Build = Build(id: string, ticket: Ticket)

  function FreshId(teamKey: string, n: nat): string { teamKey + "-" + Render(n) }

  /** The ids after the builds: the last build of a real ticket names it. */
  function BuildIds(builds: seq<Build>): map<string, string> {
    if builds == [] then map[]
    else BuildIds(builds[..|builds| - 1])[builds[|builds| - 1].ticket.id := builds[|builds| - 1].id]
  }

  datatype Numbering = Numbering(ids: map<string, string>, next: nat)

  /** One more ticket of a state: a fresh id unless it has one. */
  function NumberOne(teamKey: string, n: Numbering, t: Ticket): Numbering {
    if t.id in n.ids then n else Numbering(n.ids[t.id := FreshId(teamKey, n.next)], n.next + 1)
  }

  function NumberAll(teamKey: string, n: Numbering, tickets: seq<Ticket>): Numbering {
    if tickets == [] then n
    else NumberOne(teamKey, NumberAll(teamKey, n, tickets[..|tickets| - 1]), tickets[|tickets| - 1])
  }

  method Renumber(teamKey: string, builds: seq<Build>, tickets: seq<Ticket>, firstNumber: nat)
    returns (ids: map<string, string>)
    ensures ids == NumberAll(teamKey, Numbering(BuildIds(builds), firstNumber), tickets).ids
  {
    ids := map[];
    for i := 0 to |builds|
      invariant ids == BuildIds(builds[..i])
    {
      assert builds[..i + 1][..i] == builds[..i];
      ids := ids[builds[i].ticket.id := builds[i].id];
    }
    assert builds[..|builds|] == builds;
    var next := firstNumber;
    ghost var start := Numbering(ids, firstNumber);
    for i := 0 to |tickets|
      invariant Numbering(ids, next) == NumberAll(teamKey, start, tickets[..i])
    {
      assert tickets[..i + 1][..i] == tickets[..i];
      if tickets[i].id !in ids {
        ids := ids[tickets[i].id := FreshId(teamKey, next)];
        next := next + 1;
      }
    }
    assert tickets[..|tickets|] == tickets;
  }

  /** A ticket under its fixture id, blocked by those of its blockers that are seeded. */
  function Fixture(ids: map<string, string>, t: Ticket): Item
    requires t.id in ids
  {
    Item(ids[t.id], set b | b in t.blockedBy && b in ids :: ids[b], t.id)
  }

  function Seeded(builds: seq<Build>, tickets: seq<Ticket>): (r: seq<Ticket>)
    ensures |r| == |builds| + |tickets|
  {
    seq(|builds|, i requires 0 <= i < |builds| => builds[i].ticket) + tickets
  }

  function Fixtures(ids: map<string, string>, seeded: seq<Ticket>): (r: seq<Item>)
    requires forall t :: t in seeded ==> t.id in ids
    ensures |r| == |seeded| && forall i :: 0 <= i < |r| ==> r[i] == Fixture(ids, seeded[i])
  {
    seq(|seeded|, i requires 0 <= i < |seeded| => Fixture(ids, seeded[i]))
  }

  /** The ids in force, and what is sorted. */
  function Ids(teamKey: string, builds: seq<Build>, tickets: seq<Ticket>, firstNumber: nat): map<string, string> {
    NumberAll(teamKey, Numbering(BuildIds(builds), firstNumber), tickets).ids
  }

  function Unordered(teamKey: string, builds: seq<Build>, tickets: seq<Ticket>, firstNumber: nat): seq<Item> {
    EverySeededNumbered(teamKey, builds, tickets, firstNumber);
    Fixtures(Ids(teamKey, builds, tickets, firstNumber), Seeded(builds, tickets))
  }

  method TrackerFixture(teamKey: string, builds: seq<Build>, tickets: seq<Ticket>, firstNumber: nat)
    returns (r: Result<seq<Item>, Error>)
    ensures r == Sort(Unordered(teamKey, builds, tickets, firstNumber))
  {
    var ids := Renumber(teamKey, builds, tickets, firstNumber);
    EverySeededNumbered(teamKey, builds, tickets, firstNumber);
    r := LayeredSort(Fixtures(ids, Seeded(builds, tickets)));
  }

  // ----- the numbering

  lemma {:induction false} BuildsNumbered(builds: seq<Build>, i: nat)
    requires i < |builds|
    ensures builds[i].ticket.id in BuildIds(builds)
  {
    if i < |builds| - 1 {
      BuildsNumbered(builds[..|builds| - 1], i);
    }
  }

  /** What the state loop leaves: earlier ids kept, one numbered ticket per fresh number used. */
  ghost predicate Numbered(teamKey: string, from: Numbering, to: Numbering, added: seq<string>) {
    && to.next == from.next + |added|
    && (forall k :: k in to.ids ==> k in from.ids || k in added)
    && (forall k :: k in from.ids ==> k in to.ids && to.ids[k] == from.ids[k])
    && (forall i :: 0 <= i < |added| ==>
         added[i] !in from.ids && added[i] in to.ids && to.ids[added[i]] == FreshId(teamKey, from.next + i))
  }

  lemma NumberedSnoc(teamKey: string, from: Numbering, mid: Numbering, added: seq<string>, id: string)
    requires Numbered(teamKey, from, mid, added) && id !in mid.ids
    ensures Numbered(teamKey, from, Numbering(mid.ids[id := FreshId(teamKey, mid.next)], mid.next + 1), added + [id])
  {
    hide FreshId;
    var all := added + [id];
    forall i | 0 <= i < |all| ensures all[i] !in from.ids && (i < |added| ==> all[i] != id) {
      assert i < |added| ==> all[i] == added[i] && added[i] in mid.ids;
    }
  }

  ghost predicate IsIdOf(id: string, tickets: seq<Ticket>) {
    exists t :: t in tickets && t.id == id
  }

  lemma IsIdOfSnoc(id: string, init: seq<Ticket>, last: Ticket)
    ensures IsIdOf(id, init + [last]) <==> IsIdOf(id, init) || last.id == id
  {
    if t :| t in init && t.id == id {
      assert t in init + [last];
    }
    if last.id == id {
      assert last in init + [last];
    }
  }

  lemma {:induction false} NumberingMeans(teamKey: string, from: Numbering, tickets: seq<Ticket>)
    returns (added: seq<string>)
    ensures Numbered(teamKey, from, NumberAll(teamKey, from, tickets), added)
    ensures forall t :: t in tickets ==> t.id in NumberAll(teamKey, from, tickets).ids
    ensures forall f :: f in added ==> IsIdOf(f, tickets)
  {
    if tickets == [] {
      added := [];
    } else {
      var init, last := tickets[..|tickets| - 1], tickets[|tickets| - 1];
      assert tickets == init + [last];
      added := NumberingMeans(teamKey, from, init);
      var mid := NumberAll(teamKey, from, init);
      assert NumberAll(teamKey, from, tickets) == NumberOne(teamKey, mid, last);
      hide NumberAll, FreshId, Numbered;
      if last.id !in mid.ids {
        NumberedSnoc(teamKey, from, mid, added, last.id);
        added := added + [last.id];
      }
      hide IsIdOf;
      forall f | f in added ensures IsIdOf(f, tickets) {
        IsIdOfSnoc(f, init, last);
      }
    }
  }

  lemma EverySeededNumbered(teamKey: string, builds: seq<Build>, tickets: seq<Ticket>, firstNumber: nat)
    ensures forall t :: t in Seeded(builds, tickets) ==> t.id in Ids(teamKey, builds, tickets, firstNumber)
  {
    var from := Numbering(BuildIds(builds), firstNumber);
    var added := NumberingMeans(teamKey, from, tickets);
    forall t | t in Seeded(builds, tickets) ensures t.id in Ids(teamKey, builds, tickets, firstNumber) {
      if t !in tickets {
        var i :| 0 <= i < |builds| && builds[i].ticket == t;
        BuildsNumbered(builds, i);
      }
    }
  }

  lemma FreshIdInjective(teamKey: string, m: nat, n: nat)
    requires FreshId(teamKey, m) == FreshId(teamKey, n)
    ensures m == n
  {
    var p := teamKey + "-";
    assert FreshId(teamKey, m)[|p|..] == Render(m) && FreshId(teamKey, n)[|p|..] == Render(n);
    RenderInjective(m, n);
  }

  /** Two real tickets without a build never get the same fresh id, and a build's ticket keeps its build's. */
  lemma FreshIdsDistinct(teamKey: string, builds: seq<Build>, tickets: seq<Ticket>, firstNumber: nat, a: string,
                         b: string)
    requires var ids := Ids(teamKey, builds, tickets, firstNumber); a in ids && b in ids && ids[a] == ids[b]
    ensures a in BuildIds(builds) || b in BuildIds(builds) || a == b
    ensures a in BuildIds(builds) ==> Ids(teamKey, builds, tickets, firstNumber)[a] == BuildIds(builds)[a]
  {
    var from := Numbering(BuildIds(builds), firstNumber);
    var added := NumberingMeans(teamKey, from, tickets);
    hide NumberAll, FreshId;
    if a !in from.ids && b !in from.ids {
      var i :| 0 <= i < |added| && added[i] == a;
      var j :| 0 <= j < |added| && added[j] == b;
      FreshIdInjective(teamKey, firstNumber + i, firstNumber + j);
    }
  }

  /** A fresh id can still be the id of a build: only the fixture ids of the builds guard against it. */
  lemma FreshIdMeetsBuild()
    ensures var a, b := Ticket("real-1", []), Ticket("real-2", []);
            var ids := Ids("AB", [Build("AB-7", a)], [b], 7);
            a.id in ids && b.id in ids && ids[a.id] == ids[b.id]
  {
    var a, b := Ticket("real-1", []), Ticket("real-2", []);
    var builds := [Build("AB-7", a)];
    assert builds[..0] == [] && BuildIds(builds) == map["real-1" := "AB-7"];
    var from := Numbering(BuildIds(builds), 7);
    assert [b][..0] == [] && NumberAll("AB", from, [b]) == NumberOne("AB", from, b);
    assert Render(7) == "7";
    assert FreshId("AB", 7) == "AB-7";
    assert b.id !in from.ids;
  }

  /** The real tickets that get a fresh id. */
  function Unbuilt(builds: seq<Build>, tickets: seq<Ticket>): set<string> {
    (set t | t in tickets :: t.id) - BuildIds(builds).Keys
  }

  /** No two builds that count share an id, and none has an id that a fresh number will spell. */
  predicate IdsApart(teamKey: string, builds: seq<Build>, tickets: seq<Ticket>, firstNumber: nat) {
    IsInjective(BuildIds(builds)) && SpellsNone(teamKey, BuildIds(builds), firstNumber, |Unbuilt(builds, tickets)|)
  }

  predicate IsInjective(ids: map<string, string>) {
    forall a, b :: a in ids && b in ids && ids[a] == ids[b] ==> a == b
  }

  /** None of `count` fresh numbers from `first` on spells an id that is taken. */
  predicate SpellsNone(teamKey: string, taken: map<string, string>, first: nat, count: nat) {
    forall a, k :: a in taken && first <= k < first + count ==> taken[a] != FreshId(teamKey, k)
  }

  lemma {:induction false} DistinctSize(s: seq<string>)
    requires forall i, j :: 0 <= i < j < |s| ==> s[i] != s[j]
    ensures |set x | x in s| == |s|
  {
    if s != [] {
      var init, last := s[..|s| - 1], s[|s| - 1];
      DistinctSize(init);
      assert s == init + [last];
      assert (set x | x in s) == (set x | x in init) + {last};
    }
  }

  /** The `i`th fresh number went to this ticket. */
  lemma AddedAt(teamKey: string, from: Numbering, to: Numbering, added: seq<string>, i: nat)
    requires Numbered(teamKey, from, to, added) && i < |added|
    ensures added[i] !in from.ids && added[i] in to.ids && to.ids[added[i]] == FreshId(teamKey, from.next + i)
  {}

  /** A numbered ticket had its id before, or got a fresh one. */
  lemma NumberedIs(teamKey: string, from: Numbering, to: Numbering, added: seq<string>, id: string) returns (i: nat)
    requires Numbered(teamKey, from, to, added) && id in to.ids
    ensures if id in from.ids then to.ids[id] == from.ids[id] else i < |added| && added[i] == id
  {
    i := 0;
    if id !in from.ids {
      i :| i < |added| && added[i] == id;
    }
  }

  lemma KeptId(teamKey: string, from: Numbering, to: Numbering, added: seq<string>, id: string)
    requires Numbered(teamKey, from, to, added) && id in from.ids
    ensures id in to.ids && to.ids[id] == from.ids[id]
  {}

  /** As many fresh numbers are used as there are tickets without an id. */
  lemma FreshCount(teamKey: string, from: Numbering, to: Numbering, tickets: seq<Ticket>, added: seq<string>)
    requires Numbered(teamKey, from, to, added)
    requires forall t :: t in tickets ==> t.id in to.ids
    requires forall f :: f in added ==> IsIdOf(f, tickets)
    ensures |added| == |(set t | t in tickets :: t.id) - from.ids.Keys|
  {
    hide Numbered, FreshId, IsIdOf;
    forall i, j | 0 <= i < j < |added| ensures added[i] != added[j] {
      AddedAt(teamKey, from, to, added, i);
      AddedAt(teamKey, from, to, added, j);
      if added[i] == added[j] {
        FreshIdInjective(teamKey, from.next + i, from.next + j);
      }
    }
    DistinctSize(added);
    var unnumbered := (set t | t in tickets :: t.id) - from.ids.Keys;
    forall f ensures f in added <==> f in unnumbered {
      if f in added {
        var i :| 0 <= i < |added| && added[i] == f;
        AddedAt(teamKey, from, to, added, i);
        IdOf(f, tickets);
      } else if f in unnumbered {
        var i := NumberedIs(teamKey, from, to, added, f);
      }
    }
    assert (set f | f in added) == unnumbered;
  }

  lemma IdOf(f: string, tickets: seq<Ticket>)
    requires IsIdOf(f, tickets)
    ensures f in set t | t in tickets :: t.id
  {}

  lemma InjectiveSpells(teamKey: string, from: Numbering, to: Numbering, added: seq<string>)
    requires Numbered(teamKey, from, to, added) && IsInjective(to.ids)
    ensures IsInjective(from.ids) && SpellsNone(teamKey, from.ids, from.next, |added|)
  {
    hide Numbered, FreshId;
    forall a, b | a in from.ids && b in from.ids && from.ids[a] == from.ids[b] ensures a == b {
      KeptId(teamKey, from, to, added, a);
      KeptId(teamKey, from, to, added, b);
    }
    forall a, k | a in from.ids && from.next <= k < from.next + |added| ensures from.ids[a] != FreshId(teamKey, k) {
      KeptId(teamKey, from, to, added, a);
      AddedAt(teamKey, from, to, added, k - from.next);
    }
  }

  lemma SpellsInjective(teamKey: string, from: Numbering, to: Numbering, added: seq<string>, a: string, b: string)
    requires Numbered(teamKey, from, to, added) && IsInjective(from.ids)
               && SpellsNone(teamKey, from.ids, from.next, |added|)
    requires a in to.ids && b in to.ids && to.ids[a] == to.ids[b]
    ensures a == b
  {
    var i := NumberedIs(teamKey, from, to, added, a);
    var j := NumberedIs(teamKey, from, to, added, b);
    hide Numbered, FreshId;
    if a !in from.ids {
      AddedAt(teamKey, from, to, added, i);
    }
    if b !in from.ids {
      AddedAt(teamKey, from, to, added, j);
    }
    if a !in from.ids && b !in from.ids {
      FreshIdInjective(teamKey, from.next + i, from.next + j);
    }
  }

  /** The fixture ids are distinct exactly when the builds' are and no fresh number spells one of them. */
  lemma IdsDistinctIff(teamKey: string, builds: seq<Build>, tickets: seq<Ticket>, firstNumber: nat)
    ensures IsInjective(Ids(teamKey, builds, tickets, firstNumber)) <==> IdsApart(teamKey, builds, tickets, firstNumber)
  {
    var from := Numbering(BuildIds(builds), firstNumber);
    var to := NumberAll(teamKey, from, tickets);
    var added := NumberingMeans(teamKey, from, tickets);
    FreshCount(teamKey, from, to, tickets, added);
    hide NumberAll, BuildIds, Numbered, IsInjective, SpellsNone;
    if IsInjective(to.ids) {
      InjectiveSpells(teamKey, from, to, added);
    }
    if IdsApart(teamKey, builds, tickets, firstNumber) {
      assert IsInjective(to.ids) by {
        forall a, b | a in to.ids && b in to.ids && to.ids[a] == to.ids[b] ensures a == b {
          SpellsInjective(teamKey, from, to, added, a, b);
        }
      }
    }
  }

  /** No real ticket stands in for two builds, or in two places of the states, or both. */
  predicate SeededOnce(builds: seq<Build>, tickets: seq<Ticket>) {
    forall i, j :: 0 <= i < j < |Seeded(builds, tickets)| ==>
        Seeded(builds, tickets)[i].id != Seeded(builds, tickets)[j].id
  }

  // ----- the order

  /** The seeded tickets' ids are distinct exactly when each real ticket is seeded once and the ids
      stay apart. */
  lemma NamesDistinctIff(teamKey: string, builds: seq<Build>, tickets: seq<Ticket>, firstNumber: nat)
    ensures DistinctNames(Unordered(teamKey, builds, tickets, firstNumber))
       <==> SeededOnce(builds, tickets) && IdsApart(teamKey, builds, tickets, firstNumber)
  {
    var ids := Ids(teamKey, builds, tickets, firstNumber);
    var items, seeded := Unordered(teamKey, builds, tickets, firstNumber), Seeded(builds, tickets);
    UnorderedIs(teamKey, builds, tickets, firstNumber);
    IdsDistinctIff(teamKey, builds, tickets, firstNumber);
    hide Unordered, Ids, Seeded, IdsApart;
    if DistinctNames(items) {
      forall i, j | 0 <= i < j < |seeded| ensures seeded[i].id != seeded[j].id {
        assert items[i].name != items[j].name;
      }
      forall a, b | a in ids && b in ids && ids[a] == ids[b] ensures a == b {
        var i := IdIsSeeded(teamKey, builds, tickets, firstNumber, a);
        var j := IdIsSeeded(teamKey, builds, tickets, firstNumber, b);
        assert items[i].name == items[j].name;
      }
    }
  }

  /** Every renumbered blocker is itself seeded, so waiting for all blockers is waiting for the
      in-set ones. */
  lemma BlockersAreSeeded(teamKey: string, builds: seq<Build>, tickets: seq<Ticket>, firstNumber: nat, x: Item)
    requires x in Unordered(teamKey, builds, tickets, firstNumber)
    ensures x.dependsOn <= Names(Unordered(teamKey, builds, tickets, firstNumber))
  {
    hide Unordered;
    var ids := Ids(teamKey, builds, tickets, firstNumber);
    var items := Unordered(teamKey, builds, tickets, firstNumber);
    var seeded := Seeded(builds, tickets);
    assert |items| == |seeded| && (forall t :: t in seeded ==> t.id in ids)
           && forall i :: 0 <= i < |items| ==> items[i] == Fixture(ids, seeded[i]) by {
      UnorderedIs(teamKey, builds, tickets, firstNumber);
    }
    var i :| 0 <= i < |items| && items[i] == x;
    forall d | d in x.dependsOn ensures d in Names(items) {
      var b :| b in seeded[i].blockedBy && b in ids && ids[b] == d;
      var j := IdIsSeeded(teamKey, builds, tickets, firstNumber, b);
      assert items[j].name == d;
      NameIn(items, items[j]);
    }
  }

  lemma UnorderedIs(teamKey: string, builds: seq<Build>, tickets: seq<Ticket>, firstNumber: nat)
    ensures var items, seeded, ids := Unordered(teamKey, builds, tickets, firstNumber), Seeded(builds, tickets),
              Ids(teamKey, builds, tickets, firstNumber);
            && |items| == |seeded|
            && (forall t :: t in seeded ==> t.id in ids)
            && forall i :: 0 <= i < |items| ==> items[i] == Fixture(ids, seeded[i])
  {
    EverySeededNumbered(teamKey, builds, tickets, firstNumber);
  }

  lemma {:induction false} BuildIdIsBuilt(builds: seq<Build>, id: string) returns (i: nat)
    requires id in BuildIds(builds)
    ensures i < |builds| && builds[i].ticket.id == id
  {
    var n := |builds| - 1;
    if builds[n].ticket.id == id {
      i := n;
    } else {
      i := BuildIdIsBuilt(builds[..n], id);
    }
  }

  lemma IdIsSeeded(teamKey: string, builds: seq<Build>, tickets: seq<Ticket>, firstNumber: nat, id: string)
    returns (i: nat)
    requires id in Ids(teamKey, builds, tickets, firstNumber)
    ensures i < |Seeded(builds, tickets)| && Seeded(builds, tickets)[i].id == id
  {
    var from := Numbering(BuildIds(builds), firstNumber);
    var added := NumberingMeans(teamKey, from, tickets);
    hide NumberAll, FreshId, BuildIds;
    if id in from.ids {
      i := BuildIdIsBuilt(builds, id);
    } else {
      assert id in added;
      var t :| t in tickets && t.id == id;
      var k :| 0 <= k < |tickets| && tickets[k] == t;
      i := |builds| + k;
    }
  }

  /** Every seeded ticket comes once, and after every ticket that carries the id of one of its seeded
      blockers. */
  lemma BlockersComeFirst(teamKey: string, builds: seq<Build>, tickets: seq<Ticket>, firstNumber: nat, t: Ticket,
                          b: string, i: nat, j: nat)
    requires var items := Unordered(teamKey, builds, tickets, firstNumber);
             var ids := Ids(teamKey, builds, tickets, firstNumber);
             && Sort(items).Ok?
             && t in Seeded(builds, tickets) && b in t.blockedBy && b in ids && t.id in ids
             && i < |Sort(items).value| && Sort(items).value[i].name == ids[b]
             && j < |Sort(items).value| && Sort(items).value[j] == Fixture(ids, t)
    ensures i < j
    ensures multiset(Sort(Unordered(teamKey, builds, tickets, firstNumber)).value)
              == multiset(Unordered(teamKey, builds, tickets, firstNumber))
  {
    hide Unordered, Sort, Ids;
    SortSound(Unordered(teamKey, builds, tickets, firstNumber));
  }

  /** Seeding throws exactly when the renumbered tickets have no layering; and when each real ticket
      is seeded once and the ids stay apart, exactly over a cycle of blockers. */
  lemma SeedingThrows(teamKey: string, builds: seq<Build>, tickets: seq<Ticket>, firstNumber: nat)
    ensures var items := Unordered(teamKey, builds, tickets, firstNumber);
            && (Sort(items).Err? <==> !exists layer :: Layering(items, layer))
            && (SeededOnce(builds, tickets) && IdsApart(teamKey, builds, tickets, firstNumber) ==>
                  (Sort(items).Err? <==> !Acyclic(items)))
  {
    hide Unordered, Sort, Acyclic, Layering, SeededOnce, IdsApart;
    var items := Unordered(teamKey, builds, tickets, firstNumber);
    ReturnsIffLayering(items);
    NamesDistinctIff(teamKey, builds, tickets, firstNumber);
    if DistinctNames(items) {
      ThrowsIffCycle(items);
    }
  }
}
