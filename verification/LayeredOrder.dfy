/** The layered topological sort that `publishablePackages` (release.ts) and `trackerFixture`
    (web-dashboard-dev-tracker.ts) both run: place everything whose in-set dependencies are placed,
    until all is placed or nothing is ready. */
module LayeredOrder {
  import opened Wrappers

  /** A candidate, and where it came from: its manifest path, or the real ticket's id. */
  datatype Item = Item(name: string, dependsOn: set<string>, origin: string)

  datatype Error = Cycle

  function Names(items: seq<Item>): set<string> {
    set x | x in items :: x.name
  }

  lemma NameIn(items: seq<Item>, x: Item)
    requires x in items
    ensures x.name in Names(items)
  {}

  lemma Named(items: seq<Item>, n: string) returns (x: Item)
    requires n in Names(items)
    ensures x in items && x.name == n
  {
    x :| x in items && x.name == n;
  }

  predicate IsReady(x: Item, names: set<string>, placed: set<string>) {
    x.name !in placed && forall d :: d in x.dependsOn && d in names ==> d in placed
  }

  /** `candidates.filter(...)`, in the candidates' order. */
  function Ready(items: seq<Item>, names: set<string>, placed: set<string>): (r: seq<Item>)
    ensures forall x :: x in r <==> x in items && IsReady(x, names, placed)
  {
    if items == [] then []
    else (if IsReady(items[0], names, placed) then [items[0]] else []) + Ready(items[1..], names, placed)
  }

  /** The loop, from what is already ordered. */
  function Place(items: seq<Item>, ordered: seq<Item>): Result<seq<Item>, Error>
    decreases |items| - |ordered|
  {
    if |ordered| >= |items| then Ok(ordered) else
      var ready := Ready(items, Names(items), Names(ordered));
      if ready == [] then Err(Cycle) else Place(items, ordered + ready)
  }

  function Sort(items: seq<Item>): Result<seq<Item>, Error> {
    Place(items, [])
  }

  /** The sort as it runs, pushing one ready candidate after another. */
  method LayeredSort(items: seq<Item>) returns (r: Result<seq<Item>, Error>)
    ensures r == Sort(items)
  {
    var names := Names(items);
    var ordered: seq<Item> := [];
    var placed: set<string> := {};
    while |ordered| < |items|
      invariant placed == Names(ordered)
      invariant Sort(items) == Place(items, ordered)
      decreases |items| - |ordered|
    {
      var ready := Ready(items, names, placed);
      if ready == [] {
        return Err(Cycle);
      }
      ordered, placed := PushAll(ready, ordered, placed);
    }
    r := Ok(ordered);
  }

  /** One ready candidate after another. */
  method PushAll(ready: seq<Item>, ordered: seq<Item>, placed: set<string>)
    returns (ordered': seq<Item>, placed': set<string>)
    requires placed == Names(ordered)
    ensures ordered' == ordered + ready && placed' == Names(ordered')
  {
    ordered', placed' := ordered, placed;
    for i := 0 to |ready|
      invariant ordered' == ordered + ready[..i] && placed' == Names(ordered')
    {
      NamesSnoc(ordered', ready[i]);
      placed' := placed' + {ready[i].name};
      ordered' := ordered' + [ready[i]];
    }
  }

  lemma NamesUnion(a: seq<Item>, b: seq<Item>)
    ensures Names(a + b) == Names(a) + Names(b)
  {}

  lemma NamesSnoc(a: seq<Item>, x: Item)
    ensures Names(a + [x]) == Names(a) + {x.name}
  {
    NamesUnion(a, [x]);
  }

  // ----- a returned order

  /** Nothing is placed twice, all that is placed was a candidate, every in-set dependency of what is
      placed is placed, and before it. */
  ghost predicate Sound(items: seq<Item>, ordered: seq<Item>) {
    && multiset(ordered) <= multiset(items)
    && (forall x, d :: x in ordered && d in x.dependsOn && d in Names(items) ==> d in Names(ordered))
    && (forall i, j :: 0 <= i < |ordered| && 0 <= j < |ordered| && ordered[i].name in ordered[j].dependsOn ==> i < j)
  }

  lemma {:induction false} ReadyCount(items: seq<Item>, names: set<string>, placed: set<string>)
    ensures multiset(Ready(items, names, placed)) <= multiset(items)
  {
    if items != [] {
      ReadyCount(items[1..], names, placed);
      assert items == [items[0]] + items[1..];
    }
  }

  lemma InItems(items: seq<Item>, ordered: seq<Item>, x: Item)
    requires multiset(ordered) <= multiset(items) && x in ordered
    ensures x in items
  {
    assert x in multiset(ordered);
    assert x in multiset(items);
  }

  lemma CountStep(items: seq<Item>, ordered: seq<Item>)
    requires multiset(ordered) <= multiset(items)
    ensures multiset(ordered + Ready(items, Names(items), Names(ordered))) <= multiset(items)
  {
    var ready := Ready(items, Names(items), Names(ordered));
    ReadyCount(items, Names(items), Names(ordered));
    forall x ensures multiset(ordered + ready)[x] <= multiset(items)[x] {
      assert multiset(ordered + ready)[x] == multiset(ordered)[x] + multiset(ready)[x];
      if x in ready {
        assert x !in ordered;
      }
    }
  }

  /** Whatever is ordered next waits only for what is already ordered. */
  lemma BeforeStep(items: seq<Item>, ordered: seq<Item>, y: Item, n: string)
    requires Sound(items, ordered) && n in y.dependsOn && n in Names(items)
    requires y in ordered + Ready(items, Names(items), Names(ordered))
    ensures n in Names(ordered)
  {
    hide Names, Ready;
    var ready := Ready(items, Names(items), Names(ordered));
    if y !in ordered {
      assert y in ready;
    }
  }

  lemma NotReady(items: seq<Item>, ordered: seq<Item>, x: Item)
    requires x.name in Names(ordered)
    ensures x !in Ready(items, Names(items), Names(ordered))
  {
    hide Names, Ready;
  }

  lemma SoundStep(items: seq<Item>, ordered: seq<Item>)
    requires Sound(items, ordered)
    ensures Sound(items, ordered + Ready(items, Names(items), Names(ordered)))
  {
    hide Names, Ready;
    var ready := Ready(items, Names(items), Names(ordered));
    var all := ordered + ready;
    CountStep(items, ordered);
    NamesUnion(ordered, ready);
    forall x, d | x in all && d in x.dependsOn && d in Names(items) ensures d in Names(all) {
      BeforeStep(items, ordered, x, d);
    }
    forall i, j | 0 <= i < |all| && 0 <= j < |all| && all[i].name in all[j].dependsOn
      ensures i < j
    {
      var x, y := all[i], all[j];
      assert y in all && x in all && (i >= |ordered| ==> x in ready);
      InItems(items, all, x);
      NameIn(items, x);
      BeforeStep(items, ordered, y, x.name);
      NotReady(items, ordered, x);
    }
  }

  lemma {:induction false} PlaceSound(items: seq<Item>, ordered: seq<Item>)
    requires Sound(items, ordered)
    ensures Place(items, ordered).Ok? ==>
              Sound(items, Place(items, ordered).value) && |Place(items, ordered).value| == |items|
    decreases |items| - |ordered|
  {
    assert |multiset(ordered)| <= |multiset(items)| by {
      SubMultisetSize(multiset(ordered), multiset(items));
    }
    if |ordered| < |items| {
      var ready := Ready(items, Names(items), Names(ordered));
      if ready != [] {
        SoundStep(items, ordered);
        PlaceSound(items, ordered + ready);
      }
    }
  }

  lemma SubMultisetSize<T>(a: multiset<T>, b: multiset<T>)
    requires a <= b
    ensures |a| <= |b| && (|a| == |b| ==> a == b)
  {
    assert b == a + (b - a);
  }

  /** A returned order is a permutation of the candidates in which every candidate comes after all
      those it depends on. */
  lemma SortSound(items: seq<Item>)
    requires Sort(items).Ok?
    ensures var ordered := Sort(items).value;
            && multiset(ordered) == multiset(items)
            && forall i, j :: 0 <= i < |ordered| && 0 <= j < |ordered| && ordered[i].name in ordered[j].dependsOn ==>
                 i < j
  {
    PlaceSound(items, []);
    SubMultisetSize(multiset(Sort(items).value), multiset(items));
  }

  // ----- when it throws

  /** Each depends on the next, and the last on the first. */
  ghost predicate IsCycle(items: seq<Item>, c: seq<Item>) {
    && c != []
    && (forall k :: 0 <= k < |c| ==> c[k] in items)
    && (forall k :: 0 <= k < |c| - 1 ==> c[k + 1].name in c[k].dependsOn)
    && c[0].name in c[|c| - 1].dependsOn
  }

  function Position(ordered: seq<Item>, x: Item): (i: nat)
    requires x in ordered
    ensures i < |ordered| && ordered[i] == x
  {
    if ordered[0] == x then 0 else 1 + Position(ordered[1..], x)
  }

  lemma {:induction false} CycleDescends(ordered: seq<Item>, c: seq<Item>, k: nat)
    requires forall i, j :: 0 <= i < |ordered| && 0 <= j < |ordered| && ordered[i].name in ordered[j].dependsOn ==>
               i < j
    requires k < |c| && (forall k :: 0 <= k < |c| ==> c[k] in ordered)
    requires forall k :: 0 <= k < |c| - 1 ==> c[k + 1].name in c[k].dependsOn
    ensures Position(ordered, c[k]) + k <= Position(ordered, c[0])
  {
    if k > 0 {
      CycleDescends(ordered, c, k - 1);
      assert c[k - 1 + 1].name in c[k - 1].dependsOn;
    }
  }

  /** A cycle is never sorted, names repeated or not. */
  lemma CycleThrows(items: seq<Item>, c: seq<Item>)
    requires IsCycle(items, c)
    ensures Sort(items).Err?
  {
    if Sort(items).Ok? {
      SortSound(items);
      var ordered := Sort(items).value;
      forall x | x in items ensures x in ordered {
        assert x in multiset(items);
      }
      assert ordered[Position(ordered, c[0])] == c[0] && ordered[Position(ordered, c[|c| - 1])] == c[|c| - 1];
      CycleDescends(ordered, c, |c| - 1);
    }
  }

  ghost predicate DistinctNames(items: seq<Item>) {
    forall i, j :: 0 <= i < j < |items| ==> items[i].name != items[j].name
  }

  ghost predicate Acyclic(items: seq<Item>) {
    forall c :: !IsCycle(items, c)
  }

  lemma {:induction false} Pigeonhole(s: seq<string>, u: set<string>) returns (i: nat, j: nat)
    requires |s| > |u| && forall k :: 0 <= k < |s| ==> s[k] in u
    ensures i < j < |s| && s[i] == s[j]
    decreases |s|
  {
    var n := |s| - 1;
    if k: nat :| k < n && s[k] == s[n] {
      return k, n;
    }
    var rest := u - {s[n]};
    assert |rest| == |u| - 1;
    forall k | 0 <= k < n ensures s[..n][k] in rest {}
    i, j := Pigeonhole(s[..n], rest);
  }

  /** Every candidate of the walk is unplaced and depends on the next one. */
  ghost predicate IsWalk(items: seq<Item>, placed: set<string>, w: seq<Item>) {
    && (forall k :: 0 <= k < |w| ==> w[k] in items && w[k].name !in placed)
    && (forall k :: 0 <= k < |w| - 1 ==> w[k + 1].name in w[k].dependsOn)
  }

  lemma WaitsFor(items: seq<Item>, names: set<string>, placed: set<string>, x: Item) returns (d: string)
    requires x in items && x.name !in placed && x !in Ready(items, names, placed)
    ensures d in x.dependsOn && d in names && d !in placed
  {
    hide Ready;
    assert !IsReady(x, names, placed);
    d :| d in x.dependsOn && d in names && d !in placed;
  }

  lemma WalkCons(items: seq<Item>, placed: set<string>, x: Item, rest: seq<Item>)
    requires IsWalk(items, placed, rest) && rest != [] && x in items && x.name !in placed && rest[0].name in x.dependsOn
    ensures IsWalk(items, placed, [x] + rest)
  {
    var w := [x] + rest;
    forall k | 0 <= k < |w| - 1 ensures w[k + 1].name in w[k].dependsOn {
      assert k > 0 ==> rest[k - 1 + 1].name in rest[k - 1].dependsOn;
    }
  }

  /** Where nothing is ready, every unplaced candidate waits for an unplaced one. */
  lemma {:induction false} StuckWalk(items: seq<Item>, placed: set<string>, x: Item, n: nat) returns (w: seq<Item>)
    requires Ready(items, Names(items), placed) == [] && x in items && x.name !in placed
    ensures IsWalk(items, placed, w) && |w| == n + 1 && w[0] == x
    decreases n
  {
    if n == 0 {
      w := [x];
    } else {
      var names := Names(items);
      var d := WaitsFor(items, names, placed, x);
      var y := Named(items, d);
      var rest := StuckWalk(items, placed, y, n - 1);
      WalkCons(items, placed, x, rest);
      w := [x] + rest;
    }
  }

  /** A walk that returns to a name closes a cycle. */
  lemma WalkCycle(items: seq<Item>, placed: set<string>, w: seq<Item>, i: nat, j: nat)
    requires IsWalk(items, placed, w) && i < j < |w| && w[i].name == w[j].name
    ensures IsCycle(items, w[i..j])
  {
    var c := w[i..j];
    assert w[j - 1 + 1].name in w[j - 1].dependsOn;
    forall k | 0 <= k < |c| - 1 ensures c[k + 1].name in c[k].dependsOn {
      assert w[i + k + 1].name in w[i + k].dependsOn;
    }
  }

  lemma StuckCycle(items: seq<Item>, placed: set<string>, x: Item) returns (c: seq<Item>)
    requires Ready(items, Names(items), placed) == [] && x in items && x.name !in placed
    ensures IsCycle(items, c)
  {
    hide *;
    var all := Names(items);
    var w := StuckWalk(items, placed, x, |all|);
    var names := seq(|w|, k requires 0 <= k < |w| => w[k].name);
    forall k | 0 <= k < |w| ensures names[k] in all {
      WalkIn(items, placed, w, k);
      NameIn(items, w[k]);
    }
    var i, j := Pigeonhole(names, all);
    WalkCycle(items, placed, w, i, j);
    c := w[i..j];
  }

  lemma WalkIn(items: seq<Item>, placed: set<string>, w: seq<Item>, k: nat)
    requires IsWalk(items, placed, w) && k < |w|
    ensures w[k] in items
  {}

  /** With distinct names, what is not placed has an unplaced name. */
  lemma Unplaced(items: seq<Item>, ordered: seq<Item>) returns (x: Item)
    requires DistinctNames(items) && multiset(ordered) <= multiset(items) && |ordered| < |items|
    ensures x in items && x.name !in Names(ordered)
  {
    assert |multiset(items)| == |items| && |multiset(ordered)| == |ordered|;
    if !exists y :: y in items && y !in ordered {
      forall y ensures multiset(items)[y] <= multiset(ordered)[y] {
        CountDistinct(items, y);
        if y in items {
          assert y in ordered;
          assert y in multiset(ordered);
        } else {
          assert y !in multiset(items);
        }
      }
      SubMultisetSize(multiset(items), multiset(ordered));
    }
    x :| x in items && x !in ordered;
    forall y | y in ordered ensures y.name != x.name {
      InItems(items, ordered, y);
    }
  }

  lemma {:induction false} CountDistinct(items: seq<Item>, y: Item)
    requires DistinctNames(items)
    ensures multiset(items)[y] <= 1
  {
    if items != [] {
      assert items == [items[0]] + items[1..];
      CountDistinct(items[1..], y);
      if items[0] == y {
        assert forall k :: 0 <= k < |items[1..]| ==> items[1..][k] == items[k + 1];
        assert y !in items[1..];
      }
    }
  }

  lemma {:induction false} PlaceThrows(items: seq<Item>, ordered: seq<Item>) returns (c: seq<Item>)
    requires DistinctNames(items) && Sound(items, ordered) && Place(items, ordered).Err?
    ensures IsCycle(items, c)
    decreases |items| - |ordered|
  {
    var ready := Ready(items, Names(items), Names(ordered));
    if ready == [] {
      var x := Unplaced(items, ordered);
      c := StuckCycle(items, Names(ordered), x);
    } else {
      SoundStep(items, ordered);
      c := PlaceThrows(items, ordered + ready);
    }
  }

  /** With distinct names the sort throws exactly when the in-set dependencies have a cycle. */
  lemma ThrowsIffCycle(items: seq<Item>)
    requires DistinctNames(items)
    ensures Sort(items).Err? <==> !Acyclic(items)
  {
    if Sort(items).Err? {
      var c := PlaceThrows(items, []);
    }
    if c :| IsCycle(items, c) {
      CycleThrows(items, c);
    }
  }

  lemma ReadyCons(x: Item, rest: seq<Item>, names: set<string>, placed: set<string>)
    ensures Ready([x] + rest, names, placed) == (if IsReady(x, names, placed) then [x] else [])
              + Ready(rest, names, placed)
  {
    assert ([x] + rest)[1..] == rest;
  }

  function Repeated(): seq<Item> {
    [Item("a", {}, "first")] + ([Item("a", {"b"}, "second")] + ([Item("b", {}, "third")] + []))
  }

  lemma RepeatedRounds(names: set<string>, placed: set<string>)
    requires names == {"a", "b"} && (placed == {} || placed == names)
    ensures Ready(Repeated(), names, placed) == if placed == {} then [Item("a", {}, "first"), Item("b", {}, "third")]
              else []
  {
    var a, a', b := Item("a", {}, "first"), Item("a", {"b"}, "second"), Item("b", {}, "third");
    assert IsReady(a, names, placed) <==> placed == {};
    assert IsReady(b, names, placed) <==> placed == {};
    assert !IsReady(a', names, placed) by {
      assert "b" in names;
    }
    ReadyCons(b, [], names, placed);
    ReadyCons(a', [b] + [], names, placed);
    ReadyCons(a, [a'] + ([b] + []), names, placed);
  }

  lemma RepeatedAcyclic(c: seq<Item>)
    ensures !IsCycle(Repeated(), c)
  {
    if c != [] && c[0] in Repeated() && c[|c| - 1] in Repeated() && c[0].name in c[|c| - 1].dependsOn {
      assert c[0].name == "b" && c[0].dependsOn == {};
      assert |c| > 1;
      assert c[0 + 1].name !in c[0].dependsOn;
    }
  }

  lemma RepeatedNames()
    ensures Names(Repeated()) == {"a", "b"} == Names([Item("a", {}, "first"), Item("b", {}, "third")])
              && Names([]) == {}
  {
    var items, ready := Repeated(), [Item("a", {}, "first"), Item("b", {}, "third")];
    assert items[0] in items && items[2] in items && ready[0] in ready && ready[1] in ready;
  }

  /** Two rounds: the second finds nothing ready and only two of three placed. */
  lemma TwoRounds(items: seq<Item>, ready: seq<Item>)
    requires |ready| < |items| && ready != []
    requires Ready(items, Names(items), Names([])) == ready && Ready(items, Names(items), Names(ready)) == []
    ensures Sort(items).Err?
  {
    hide Ready, Names;
    assert [] + ready == ready;
    assert Place(items, ready).Err?;
  }

  /** With a repeated name it can throw without a cycle. */
  lemma RepeatedNameThrows()
    ensures Sort(Repeated()).Err? && Acyclic(Repeated())
  {
    hide Sort, Ready, IsReady, IsCycle, Names;
    RepeatedNames();
    RepeatedRounds({"a", "b"}, {});
    RepeatedRounds({"a", "b"}, {"a", "b"});
    TwoRounds(Repeated(), [Item("a", {}, "first"), Item("b", {}, "third")]);
    forall c: seq<Item> ensures !IsCycle(Repeated(), c) {
      RepeatedAcyclic(c);
    }
  }

  // ----- exactly when it returns, names repeated or not

  /** Every name has a layer: above those of all its in-set dependencies, and right above one of
      them unless it is the bottom layer. Candidates of one name must agree on it. */
  ghost predicate Layering(items: seq<Item>, layer: map<string, nat>) {
    && layer.Keys == Names(items)
    && forall x :: x in items ==> Layered(x, layer)
  }

  ghost predicate Layered(x: Item, layer: map<string, nat>) {
    && x.name in layer
    && (forall d :: d in x.dependsOn && d in layer ==> layer[d] < layer[x.name])
    && (layer[x.name] > 0 ==> exists d :: d in x.dependsOn && d in layer && layer[d] == layer[x.name] - 1)
  }

  /** The candidates of the layers below `k`, each as often as it occurs. */
  ghost predicate HoldsLayers(items: seq<Item>, layer: map<string, nat>, ordered: seq<Item>, k: nat)
    requires Layering(items, layer)
  {
    forall x :: multiset(ordered)[x] == if x in items && layer[x.name] < k then multiset(items)[x] else 0
  }

  lemma {:induction false} ReadyCountExact(items: seq<Item>, names: set<string>, placed: set<string>, x: Item)
    ensures multiset(Ready(items, names, placed))[x] == if IsReady(x, names, placed) then multiset(items)[x] else 0
  {
    if items != [] {
      ReadyCountExact(items[1..], names, placed, x);
      assert items == [items[0]] + items[1..];
    }
  }

  lemma PlacedLayers(items: seq<Item>, layer: map<string, nat>, ordered: seq<Item>, k: nat, n: string)
    requires Layering(items, layer) && HoldsLayers(items, layer, ordered, k)
    ensures n in Names(ordered) <==> n in layer && layer[n] < k
  {
    if n in Names(ordered) {
      var x :| x in ordered && x.name == n;
      assert x in multiset(ordered);
    }
    if n in layer && layer[n] < k {
      var x :| x in items && x.name == n;
      assert x in multiset(items);
      assert x in multiset(ordered);
    }
  }

  /** What becomes ready next is exactly the next layer. */
  lemma ReadyIsLayer(items: seq<Item>, layer: map<string, nat>, ordered: seq<Item>, k: nat, x: Item)
    requires Layering(items, layer) && HoldsLayers(items, layer, ordered, k) && x in items
    ensures IsReady(x, Names(items), Names(ordered)) <==> layer[x.name] == k
  {
    forall n ensures n in Names(ordered) <==> n in layer && layer[n] < k {
      PlacedLayers(items, layer, ordered, k, n);
    }
    assert Layered(x, layer);
  }

  lemma {:induction false} LayerPopulated(items: seq<Item>, layer: map<string, nat>, x: Item, k: nat) returns (y: Item)
    requires Layering(items, layer) && x in items && layer[x.name] >= k
    ensures y in items && layer[y.name] == k
    decreases layer[x.name]
  {
    if layer[x.name] == k {
      y := x;
    } else {
      assert Layered(x, layer);
      var d :| d in x.dependsOn && d in layer && layer[d] == layer[x.name] - 1;
      var z :| z in items && z.name == d;
      y := LayerPopulated(items, layer, z, k);
    }
  }

  lemma LayersStep(items: seq<Item>, layer: map<string, nat>, ordered: seq<Item>, k: nat)
    requires Layering(items, layer) && HoldsLayers(items, layer, ordered, k)
    ensures HoldsLayers(items, layer, ordered + Ready(items, Names(items), Names(ordered)), k + 1)
  {
    var ready := Ready(items, Names(items), Names(ordered));
    forall x
      ensures multiset(ordered + ready)[x] == if x in items && layer[x.name] < k + 1 then multiset(items)[x] else 0
    {
      ReadyCountExact(items, Names(items), Names(ordered), x);
      if x in items {
        ReadyIsLayer(items, layer, ordered, k, x);
      } else {
        assert multiset(items)[x] == 0;
      }
    }
  }

  lemma {:induction false} LayeringReturns(items: seq<Item>, layer: map<string, nat>, ordered: seq<Item>, k: nat)
    requires Layering(items, layer) && HoldsLayers(items, layer, ordered, k)
    ensures Place(items, ordered).Ok?
    decreases |items| - |ordered|
  {
    if |ordered| < |items| {
      assert |multiset(items)| == |items| && |multiset(ordered)| == |ordered|;
      var x := Above(items, layer, ordered, k);
      var y := LayerPopulated(items, layer, x, k);
      ReadyIsLayer(items, layer, ordered, k, y);
      LayersStep(items, layer, ordered, k);
      LayeringReturns(items, layer, ordered + Ready(items, Names(items), Names(ordered)), k + 1);
    }
  }

  /** While something is missing, some candidate lies in layer `k` or above. */
  lemma Above(items: seq<Item>, layer: map<string, nat>, ordered: seq<Item>, k: nat) returns (x: Item)
    requires Layering(items, layer) && HoldsLayers(items, layer, ordered, k) && |ordered| < |items|
    ensures x in items && layer[x.name] >= k
  {
    assert |multiset(items)| == |items| && |multiset(ordered)| == |ordered|;
    assert multiset(ordered) != multiset(items);
    var y :| multiset(ordered)[y] != multiset(items)[y];
    x := y;
    assert multiset(items)[x] != 0;
    assert x in multiset(items);
  }

  /** The layers an actual run goes through. `layer` covers what is placed after `k` rounds. */
  ghost predicate RunLayers(items: seq<Item>, ordered: seq<Item>, k: nat, layer: map<string, nat>) {
    && layer.Keys == Names(ordered)
    && (forall n :: n in layer ==> layer[n] < k)
    && (forall x :: x in ordered ==> x in items && PlacedAt(items, x, layer))
    && (forall x :: x in items && x.name !in layer && k > 0 ==>
          exists d :: d in x.dependsOn && d in Names(items) && (d in layer ==> layer[d] == k - 1))
  }

  ghost predicate PlacedAt(items: seq<Item>, x: Item, layer: map<string, nat>) {
    && x.name in layer
    && (forall d :: d in x.dependsOn && d in Names(items) ==> d in layer && layer[d] < layer[x.name])
    && (layer[x.name] > 0 ==> exists d :: d in x.dependsOn && d in layer && layer[d] == layer[x.name] - 1)
  }

  lemma {:induction false} ReturnsLayering(items: seq<Item>, ordered: seq<Item>, k: nat, layer: map<string, nat>)
    returns (full: map<string, nat>)
    requires Place(items, ordered).Ok? && RunLayers(items, ordered, k, layer)
    ensures full.Keys == Names(Place(items, ordered).value)
    ensures forall x :: x in Place(items, ordered).value ==> x in items && PlacedAt(items, x, full)
    decreases |items| - |ordered|
  {
    if |ordered| >= |items| {
      full := layer;
    } else {
      var ready := Ready(items, Names(items), Names(ordered));
      var next := RunStep(items, ordered, k, layer);
      full := ReturnsLayering(items, ordered + ready, k + 1, next);
    }
  }

  lemma PlacedStays(items: seq<Item>, x: Item, layer: map<string, nat>, next: map<string, nat>)
    requires PlacedAt(items, x, layer) && forall n :: n in layer ==> n in next && next[n] == layer[n]
    ensures PlacedAt(items, x, next)
  {
    hide Names;
  }

  lemma PlacedNow(items: seq<Item>, ordered: seq<Item>, k: nat, layer: map<string, nat>, next: map<string, nat>,
                  x: Item)
    requires RunLayers(items, ordered, k, layer) && x in items && IsReady(x, Names(items), Names(ordered))
    requires (forall n :: n in layer ==> n in next && next[n] == layer[n]) && x.name in next && next[x.name] == k
    ensures PlacedAt(items, x, next)
  {
    hide Names;
    if k > 0 {
      var d :| d in x.dependsOn && d in Names(items) && (d in layer ==> layer[d] == k - 1);
      assert d in next && next[d] == k - 1;
    }
  }

  lemma RunStep(items: seq<Item>, ordered: seq<Item>, k: nat, layer: map<string, nat>) returns (next: map<string, nat>)
    requires RunLayers(items, ordered, k, layer)
    ensures RunLayers(items, ordered + Ready(items, Names(items), Names(ordered)), k + 1, next)
  {
    hide Names, Ready, PlacedAt, IsReady;
    var ready := Ready(items, Names(items), Names(ordered));
    var all := ordered + ready;
    NamesUnion(ordered, ready);
    next := map n | n in Names(all) :: if n in layer then layer[n] else k;
    forall x | x in all ensures x in items && PlacedAt(items, x, next) {
      NameIn(all, x);
      if x in ordered {
        PlacedStays(items, x, layer, next);
      } else {
        assert x in ready;
        FreshName(items, ordered, x);
        PlacedNow(items, ordered, k, layer, next, x);
      }
    }
    forall x | x in items && x.name !in next
      ensures exists d :: d in x.dependsOn && d in Names(items) && (d in next ==> next[d] == k)
    {
      if x in ready {
        NameIn(ready, x);
        assert false;
      }
      var d := WaitsFor(items, Names(items), Names(ordered), x);
      assert d in next ==> next[d] == k;
    }
  }

  lemma FreshName(items: seq<Item>, ordered: seq<Item>, x: Item)
    requires x in Ready(items, Names(items), Names(ordered))
    ensures x in items && IsReady(x, Names(items), Names(ordered)) && x.name !in Names(ordered)
  {
    hide Ready, Names;
  }

  lemma RunLayering(items: seq<Item>) returns (layer: map<string, nat>)
    requires Sort(items).Ok?
    ensures Layering(items, layer)
  {
    hide Names;
    assert Names([]) == {} by {
      NoNames();
    }
    layer := ReturnsLayering(items, [], 0, map[]);
    SortSound(items);
    var ordered := Sort(items).value;
    forall x ensures x in items <==> x in ordered {
      assert x in items <==> x in multiset(items);
    }
    SameNames(items, ordered);
    forall x | x in items ensures Layered(x, layer) {
      assert PlacedAt(items, x, layer);
    }
  }

  lemma NoNames()
    ensures Names([]) == {}
  {}

  lemma SameNames(a: seq<Item>, b: seq<Item>)
    requires forall x :: x in a <==> x in b
    ensures Names(a) == Names(b)
  {}

  /** The sort returns exactly when the candidates have a layering. */
  lemma ReturnsIffLayering(items: seq<Item>)
    ensures Sort(items).Ok? <==> exists layer :: Layering(items, layer)
  {
    hide Sort, Place, Names;
    if Sort(items).Ok? {
      var layer := RunLayering(items);
    }
    if layer :| Layering(items, layer) {
      NothingHeld(items, layer);
      LayeringReturns(items, layer, [], 0);
      assert Sort(items) == Place(items, []) by {
        SortIsPlace(items);
      }
    }
  }

  lemma SortIsPlace(items: seq<Item>)
    ensures Sort(items) == Place(items, [])
  {}

  lemma NothingHeld(items: seq<Item>, layer: map<string, nat>)
    requires Layering(items, layer)
    ensures HoldsLayers(items, layer, [], 0)
  {
    hide Names;
  }
}
