/** The memoised walk of a cyclic type graph in reducer-value-shapes.ts: every type reached gets one id,
    and every id a shape that names other types by their ids. */
module ReducerShapes {
  import opened Wrappers
  import opened Decimal

  /** A type as the checker tells types apart. */
  datatype Node = Node(serial: nat)

  datatype Prop = Prop(name: string, node: Node, optional: bool)

  /** What the checker answers about a type. */
  datatype Facts = Facts(
    isAny: bool, isUndefined: bool, isNull: bool, literal: Option<string>, booleanLiteral: Option<string>,
    isStringLike: bool, isNumberLike: bool, isBoolean: bool, union: Option<seq<Node>>, element: Option<Node>,
    isCallable: bool, text: string, props: seq<Prop>, index: Option<Node>)

  datatype Value = Null | Of(value: string) | Truth(truth: bool)

  datatype Field = Field(name: string, id: string, optional: bool)

  datatype Shape =
    | Pending
    | Json
    | Undefined
    | Literal(value: Value)
    | StringShape
    | NumberShape
    | BooleanShape
    | Union(items: seq<string>)
    | Array(item: string)
    | Excluded(reason: string)
    | Object(props: seq<Field>, index: Option<string>)

  /** `/^(Map|Set|ReadonlyMap|ReadonlySet)</` */
  predicate IsCollection(text: string) {
    "Map<" <= text || "Set<" <= text || "ReadonlyMap<" <= text || "ReadonlySet<" <= text
  }

  /** The shapes that mention no other type, tried first and in this order. */
  function LeafShape(f: Facts): Option<Shape> {
    if f.isAny then Some(Json)
    else if f.isUndefined then Some(Undefined)
    else if f.isNull then Some(Literal(Null))
    else if f.literal.Some? then Some(Literal(Of(f.literal.value)))
    else if f.booleanLiteral.Some? then Some(Literal(Truth(f.booleanLiteral.value == "true")))
    else if f.isStringLike then Some(StringShape)
    else if f.isNumberLike then Some(NumberShape)
    else if f.isBoolean then Some(BooleanShape)
    else None
  }

  function PropNodes(props: seq<Prop>): (r: seq<Node>)
    ensures |r| == |props| && forall i :: 0 <= i < |r| ==> r[i] == props[i].node
  {
    seq(|props|, i requires 0 <= i < |props| => props[i].node)
  }

  /** The types a type's shape mentions, in the order they are visited. */
  function Children(f: Facts): seq<Node> {
    if LeafShape(f).Some? then []
    else if f.union.Some? then f.union.value
    else if f.element.Some? then [f.element.value]
    else if f.isCallable || IsCollection(f.text) then []
    else PropNodes(f.props) + if f.index.Some? then [f.index.value] else []
  }

  function IdsOf(nodes: seq<Node>, ids: map<Node, string>): (r: seq<string>)
    requires forall n :: n in nodes ==> n in ids
    ensures |r| == |nodes| && forall i :: 0 <= i < |r| ==> r[i] == ids[nodes[i]]
  {
    seq(|nodes|, i requires 0 <= i < |nodes| => ids[nodes[i]])
  }

  function FieldsOf(props: seq<Prop>, ids: seq<string>): (r: seq<Field>)
    requires |ids| == |props|
    ensures |r| == |props| && forall i :: 0 <= i < |r| ==> r[i] == Field(props[i].name, ids[i], props[i].optional)
  {
    seq(|props|, i requires 0 <= i < |props| => Field(props[i].name, ids[i], props[i].optional))
  }

  /** The shape of a type, its children's ids given in order. */
  function ShapeWith(f: Facts, ids: seq<string>): (r: Shape)
    requires |ids| == |Children(f)|
    ensures r != Pending
  {
    if LeafShape(f).Some? then LeafShape(f).value
    else if f.union.Some? then Union(ids)
    else if f.element.Some? then Array(ids[0])
    else if f.isCallable then Excluded("function")
    else if IsCollection(f.text) then Excluded("collection")
    else Object(FieldsOf(f.props, ids[..|f.props|]), if f.index.Some? then Some(ids[|f.props|]) else None)
  }

  /** The ids a shape mentions. */
  function Mentions(s: Shape): seq<string> {
    match s
    case Union(items) => items
    case Array(item) => [item]
    case Object(props, index) =>
      seq(|props|, i requires 0 <= i < |props| => props[i].id) + if index.Some? then [index.value] else []
    case _ => []
  }

  lemma ShapeMentions(f: Facts, ids: seq<string>)
    requires |ids| == |Children(f)|
    ensures Mentions(ShapeWith(f, ids)) == ids
  {
    if LeafShape(f).None? && f.union.None? && f.element.None? && !f.isCallable && !IsCollection(f.text) {
      var props := FieldsOf(f.props, ids[..|f.props|]);
      var named := seq(|props|, i requires 0 <= i < |props| => props[i].id);
      assert named == ids[..|f.props|];
      assert f.index.Some? ==> ids == ids[..|f.props|] + [ids[|f.props|]];
    }
  }

  // ----- the order of the tests

  /** The tests in their order; the last always holds. */
  ghost function Tests(f: Facts): (r: seq<bool>)
    ensures |r| == 13
  {
    [f.isAny, f.isUndefined, f.isNull, f.literal.Some?, f.booleanLiteral.Some?, f.isStringLike, f.isNumberLike,
     f.isBoolean, f.union.Some?, f.element.Some?, f.isCallable, NamesCollection(f.text), true]
  }

  /** A name of one of the four collections, and its type arguments. */
  ghost predicate NamesCollection(text: string) {
    exists name, rest :: name in {"Map", "Set", "ReadonlyMap", "ReadonlySet"} && text == name + "<" + rest
  }

  lemma CollectionMeans(text: string)
    ensures IsCollection(text) <==> NamesCollection(text)
  {
    NamedCollection(text, "Map", "Map<");
    NamedCollection(text, "Set", "Set<");
    NamedCollection(text, "ReadonlyMap", "ReadonlyMap<");
    NamedCollection(text, "ReadonlySet", "ReadonlySet<");
  }

  lemma NamedCollection(text: string, name: string, start: string)
    requires start == name + "<"
    ensures start <= text <==> exists rest :: text == name + "<" + rest
  {
    if start <= text {
      assert text == name + "<" + text[|start|..];
    }
  }

  /** The first test that holds decides the shape. */
  lemma FirstTestDecides(f: Facts, ids: seq<string>, k: nat)
    requires |ids| == |Children(f)| && k < 13 && Tests(f)[k] && forall j :: 0 <= j < k ==> !Tests(f)[j]
    ensures match ShapeWith(f, ids)
            case Json => k == 0
            case Undefined => k == 1
            case Literal(Null) => k == 2
            case Literal(Of(value)) => k == 3 && f.literal == Some(value)
            case Literal(Truth(truth)) => k == 4 && truth == (f.booleanLiteral == Some("true"))
            case StringShape => k == 5
            case NumberShape => k == 6
            case BooleanShape => k == 7
            case Union(items) => k == 8 && items == ids
            case Array(item) => k == 9 && ids == [item]
            case Excluded(reason) => (k == 10 && reason == "function") || (k == 11 && reason == "collection")
            case Object(props, index) => k == 12
            case Pending => false
  {
    CollectionMeans(f.text);
    hide IsCollection, NamesCollection;
    var t := Tests(f);
    assert (0 < k ==> !t[0]) && (1 < k ==> !t[1]) && (2 < k ==> !t[2]) && (3 < k ==> !t[3]) && (4 < k ==> !t[4]);
    assert (5 < k ==> !t[5]) && (6 < k ==> !t[6]) && (7 < k ==> !t[7]) && (8 < k ==> !t[8]) && (9 < k ==> !t[9]);
    assert (10 < k ==> !t[10]) && (11 < k ==> !t[11]);
  }

  // ----- the graph

  /** A finite set of types that holds whatever its members mention. */
  ghost predicate IsGraph(facts: Node -> Facts, nodes: set<Node>) {
    forall n, c :: n in nodes && c in Children(facts(n)) ==> c in nodes
  }

  ghost predicate IsPath(facts: Node -> Facts, path: seq<Node>) {
    path != [] && forall i :: 0 <= i < |path| - 1 ==> path[i + 1] in Children(facts(path[i]))
  }

  ghost predicate Reachable(facts: Node -> Facts, from: Node, to: Node) {
    exists path :: IsPath(facts, path) && path[0] == from && path[|path| - 1] == to
  }

  lemma ReachableSelf(facts: Node -> Facts, n: Node)
    ensures Reachable(facts, n, n)
  {
    assert IsPath(facts, [n]);
  }

  lemma ReachableVia(facts: Node -> Facts, from: Node, child: Node, to: Node)
    requires child in Children(facts(from)) && Reachable(facts, child, to)
    ensures Reachable(facts, from, to)
  {
    hide Children;
    var path :| IsPath(facts, path) && path[0] == child && path[|path| - 1] == to;
    var longer := [from] + path;
    forall i | 0 <= i < |longer| - 1 ensures longer[i + 1] in Children(facts(longer[i])) {
      assert i > 0 ==> path[i - 1 + 1] in Children(facts(path[i - 1]));
    }
    assert IsPath(facts, longer);
  }

  lemma {:induction false} ClosedHoldsPath(facts: Node -> Facts, closed: set<Node>, path: seq<Node>, k: nat)
    requires IsPath(facts, path) && path[0] in closed && k < |path|
    requires forall n, c :: n in closed && c in Children(facts(n)) ==> c in closed
    ensures path[k] in closed
  {
    hide Children;
    if k > 0 {
      ClosedHoldsPath(facts, closed, path, k - 1);
      assert path[k - 1 + 1] in Children(facts(path[k - 1]));
    }
  }

  // ----- the memo

  /** `rank` counts the types in the order they got their ids; the types still being visited are
      `pending`. Every other known type has its final shape. */
  datatype Memo = Memo(ids: map<Node, string>, schemas: map<string, Shape>, rank: map<Node, nat>, pending: set<Node>)

  ghost predicate IsNumbered(m: Memo) {
    SpellsRanks(m.ids, m.rank, |m.ids|) && IsOneToOne(m.rank)
  }

  ghost predicate SpellsRanks(ids: map<Node, string>, rank: map<Node, nat>, count: nat) {
    rank.Keys == ids.Keys && forall n :: n in ids ==> rank[n] < count && ids[n] == Render(rank[n])
  }

  ghost predicate IsOneToOne(rank: map<Node, nat>) {
    forall a, b :: a in rank && b in rank && rank[a] == rank[b] ==> a == b
  }

  ghost predicate IsSettled(facts: Node -> Facts, m: Memo, n: Node) {
    && n in m.ids && m.ids[n] in m.schemas
    && (forall c :: c in Children(facts(n)) ==> c in m.ids)
    && m.schemas[m.ids[n]] == ShapeWith(facts(n), IdsOf(Children(facts(n)), m.ids))
  }

  /** The schemas are those of the known types. */
  ghost predicate IsNamed(m: Memo) {
    && (forall n :: n in m.ids ==> m.ids[n] in m.schemas)
    && (forall id :: id in m.schemas ==> exists n :: n in m.ids && m.ids[n] == id)
  }

  ghost predicate IsHeld(m: Memo) {
    forall n :: n in m.pending ==> n in m.ids && m.ids[n] in m.schemas && m.schemas[m.ids[n]] == Pending
  }

  ghost predicate AllSettled(facts: Node -> Facts, m: Memo) {
    forall n :: n in m.ids && n !in m.pending ==> IsSettled(facts, m, n)
  }

  ghost predicate IsMemo(facts: Node -> Facts, nodes: set<Node>, m: Memo) {
    m.ids.Keys <= nodes && IsNumbered(m) && IsNamed(m) && IsHeld(m) && AllSettled(facts, m)
  }

  /** No two types share an id. */
  lemma IdsInjective(m: Memo, a: Node, b: Node)
    requires IsNumbered(m) && a in m.ids && b in m.ids && m.ids[a] == m.ids[b]
    ensures a == b
  {
    RenderInjective(m.rank[a], m.rank[b]);
  }

  lemma FreshId(m: Memo)
    requires IsNumbered(m)
    ensures forall n :: n in m.ids ==> m.ids[n] != Render(|m.ids|)
  {
    hide Render;
    forall n | n in m.ids ensures m.ids[n] != Render(|m.ids|) {
      RenderInjective(m.rank[n], |m.ids|);
    }
  }

  /** A type first seen: its id is taken and its schema pending. */
  function Begun(m: Memo, n: Node): Memo {
    Memo(m.ids[n := Render(|m.ids|)], m.schemas[Render(|m.ids|) := Pending], m.rank[n := |m.ids|], m.pending + {n})
  }

  lemma SettledStays(facts: Node -> Facts, m: Memo, m': Memo, n: Node)
    requires IsSettled(facts, m, n)
    requires forall k :: k in m.ids ==> k in m'.ids && m'.ids[k] == m.ids[k]
    requires m.ids[n] in m'.schemas && m'.schemas[m.ids[n]] == m.schemas[m.ids[n]]
    ensures IsSettled(facts, m', n)
  {
    hide Children, ShapeWith;
    var children := Children(facts(n));
    assert IdsOf(children, m'.ids) == IdsOf(children, m.ids);
  }

  lemma BegunNumbered(m: Memo, n: Node)
    requires IsNumbered(m) && n !in m.ids
    ensures IsNumbered(Begun(m, n))
  {
    BegunSize(m, n);
    RanksMore(m.ids, m.rank, n, |m.ids|);
    hide Render, SpellsRanks, IsOneToOne;
  }

  lemma RanksMore(ids: map<Node, string>, rank: map<Node, nat>, n: Node, count: nat)
    requires SpellsRanks(ids, rank, count) && IsOneToOne(rank) && n !in ids
    ensures SpellsRanks(ids[n := Render(count)], rank[n := count], count + 1) && IsOneToOne(rank[n := count])
  {
    hide Render;
    assert n !in rank && forall k :: k in rank ==> rank[k] < count;
  }

  lemma BegunSize(m: Memo, n: Node)
    requires n !in m.ids
    ensures |Begun(m, n).ids| == |m.ids| + 1
  {
    hide Render;
    assert Begun(m, n).ids.Keys == m.ids.Keys + {n};
  }

  lemma BegunNamed(m: Memo, n: Node)
    requires IsNamed(m) && n !in m.ids
    ensures IsNamed(Begun(m, n))
  {
    hide Render;
    var m' := Begun(m, n);
    forall id | id in m'.schemas ensures exists k :: k in m'.ids && m'.ids[k] == id {
      if id == Render(|m.ids|) {
        assert m'.ids[n] == id;
      } else {
        var k :| k in m.ids && m.ids[k] == id;
        assert m'.ids[k] == id;
      }
    }
  }

  lemma BegunSettled(facts: Node -> Facts, m: Memo, n: Node)
    requires IsNumbered(m) && AllSettled(facts, m) && IsHeld(m) && n !in m.ids
    ensures AllSettled(facts, Begun(m, n)) && IsHeld(Begun(m, n))
  {
    FreshId(m);
    hide IsSettled, IsNumbered, Render;
    var m' := Begun(m, n);
    forall k | k in m'.ids && k !in m'.pending ensures IsSettled(facts, m', k) {
      BegunOthers(facts, m, n, k);
    }
  }

  lemma BegunOthers(facts: Node -> Facts, m: Memo, n: Node, k: Node)
    requires AllSettled(facts, m) && n !in m.ids && k in m.ids && k !in m.pending && m.ids[k] != Render(|m.ids|)
    ensures IsSettled(facts, Begun(m, n), k)
  {
    hide IsSettled, Render;
    var m' := Begun(m, n);
    Settled(facts, m, k);
    SettledStays(facts, m, m', k);
  }

  lemma BegunIsMemo(facts: Node -> Facts, nodes: set<Node>, m: Memo, n: Node)
    requires IsMemo(facts, nodes, m) && n in nodes && n !in m.ids
    ensures IsMemo(facts, nodes, Begun(m, n))
  {
    hide IsNumbered, IsNamed, IsHeld, AllSettled, Render, Begun;
    BegunNumbered(m, n);
    BegunNamed(m, n);
    BegunSettled(facts, m, n);
    BegunKeys(nodes, m, n);
  }

  lemma BegunKeys(nodes: set<Node>, m: Memo, n: Node)
    requires m.ids.Keys <= nodes && n in nodes
    ensures Begun(m, n).ids.Keys <= nodes
  {
    hide Render;
  }

  lemma Settled(facts: Node -> Facts, m: Memo, n: Node)
    requires IsSettled(facts, m, n)
    ensures n in m.ids && m.ids[n] in m.schemas
  {}

  /** A type all of whose children have ids: its shape replaces the pending entry. */
  function Finished(m: Memo, n: Node, shape: Shape): Memo
    requires n in m.ids
  {
    m.(schemas := m.schemas[m.ids[n] := shape], pending := m.pending - {n})
  }

  lemma FinishedSettled(facts: Node -> Facts, m: Memo, n: Node, shape: Shape)
    requires IsNumbered(m) && AllSettled(facts, m) && IsHeld(m) && n in m.pending && n in m.ids
    requires (forall c :: c in Children(facts(n)) ==> c in m.ids)
               && shape == ShapeWith(facts(n), IdsOf(Children(facts(n)), m.ids))
    ensures AllSettled(facts, Finished(m, n, shape)) && IsHeld(Finished(m, n, shape))
  {
    hide Children, ShapeWith, IsNumbered, AllSettled, IsHeld;
    HeldMeans(m, n);
    assert IsSettled(facts, Finished(m, n, shape), n);
    OthersDiffer(m, n);
    OthersSettled(facts, m, n, shape);
  }

  lemma HeldMeans(m: Memo, n: Node)
    requires IsHeld(m) && n in m.pending
    ensures n in m.ids && m.ids[n] in m.schemas
  {}

  lemma OthersDiffer(m: Memo, n: Node)
    requires IsNumbered(m) && n in m.ids
    ensures forall k :: k in m.ids && k != n ==> m.ids[k] != m.ids[n]
  {
    forall k | k in m.ids && k != n ensures m.ids[k] != m.ids[n] {
      if m.ids[k] == m.ids[n] {
        IdsInjective(m, k, n);
      }
    }
  }

  lemma OthersSettled(facts: Node -> Facts, m: Memo, n: Node, shape: Shape)
    requires AllSettled(facts, m) && IsHeld(m) && n in m.pending && n in m.ids
    requires forall k :: k in m.ids && k != n ==> m.ids[k] != m.ids[n]
    requires IsSettled(facts, Finished(m, n, shape), n)
    ensures AllSettled(facts, Finished(m, n, shape)) && IsHeld(Finished(m, n, shape))
  {
    hide IsSettled;
    var m' := Finished(m, n, shape);
    forall k | k in m'.ids && k !in m'.pending && k != n ensures IsSettled(facts, m', k) {
      assert IsSettled(facts, m, k);
      Settled(facts, m, k);
      SettledStays(facts, m, m', k);
    }
  }

  lemma FinishedNumbers(m: Memo, n: Node, shape: Shape)
    requires IsNumbered(m) && n in m.ids
    ensures IsNumbered(Finished(m, n, shape))
  {
    hide Render;
  }

  lemma FinishedNamed(m: Memo, n: Node, shape: Shape)
    requires IsNamed(m) && IsNumbered(m) && n in m.ids
    ensures IsNamed(Finished(m, n, shape)) && IsNumbered(Finished(m, n, shape))
  {
    hide Render, IsNumbered;
    FinishedNumbers(m, n, shape);
    var m' := Finished(m, n, shape);
    forall id | id in m'.schemas ensures exists k :: k in m'.ids && m'.ids[k] == id {
      assert id in m.schemas;
      var k :| k in m.ids && m.ids[k] == id;
    }
  }

  lemma FinishedIsMemo(facts: Node -> Facts, nodes: set<Node>, m: Memo, n: Node, shape: Shape)
    requires IsMemo(facts, nodes, m) && n in m.pending && n in m.ids
    requires (forall c :: c in Children(facts(n)) ==> c in m.ids)
               && shape == ShapeWith(facts(n), IdsOf(Children(facts(n)), m.ids))
    ensures IsMemo(facts, nodes, Finished(m, n, shape))
  {
    hide IsNumbered, IsNamed, IsHeld, AllSettled, Children, ShapeWith;
    FinishedSettled(facts, m, n, shape);
    FinishedNamed(m, n, shape);
  }

  /** Known types keep their ids. */
  ghost predicate Extends(before: map<Node, string>, after: map<Node, string>) {
    forall n :: n in before ==> n in after && after[n] == before[n]
  }

  lemma ExtendsTransitive(a: map<Node, string>, b: map<Node, string>, c: map<Node, string>)
    requires Extends(a, b) && Extends(b, c)
    ensures Extends(a, c)
  {}

  lemma ExtendsOne(a: map<Node, string>, n: Node, id: string)
    requires n !in a
    ensures Extends(a, a[n := id]) && a[n := id].Keys == a.Keys + {n}
  {}

  lemma ExtendsSame(a: map<Node, string>)
    ensures Extends(a, a)
  {}

  lemma ExtendsKeys(a: map<Node, string>, b: map<Node, string>)
    requires Extends(a, b)
    ensures a.Keys <= b.Keys
  {}

  /** All children have ids, these. */
  ghost predicate AreChildIds(children: seq<Node>, mentioned: seq<string>, ids: map<Node, string>) {
    (forall c :: c in children ==> c in ids) && mentioned == IdsOf(children, ids)
  }

  /** The first children have these ids. */
  ghost predicate AreIds(children: seq<Node>, mentioned: seq<string>, ids: map<Node, string>) {
    |mentioned| <= |children|
        && forall k :: 0 <= k < |mentioned| ==> children[k] in ids && mentioned[k] == ids[children[k]]
  }

  lemma AreIdsSnoc(children: seq<Node>, mentioned: seq<string>, before: map<Node, string>, ids: map<Node, string>,
                   id: string)
    requires AreIds(children, mentioned, before) && |mentioned| < |children| && Extends(before, ids)
    requires children[|mentioned|] in ids && ids[children[|mentioned|]] == id
    ensures AreIds(children, mentioned + [id], ids)
  {}

  lemma NoIds(children: seq<Node>, ids: map<Node, string>)
    ensures AreIds(children, [], ids)
  {}

  lemma ExtendsAt(a: map<Node, string>, b: map<Node, string>, n: Node)
    requires Extends(a, b) && n in a
    ensures n in b && b[n] == a[n]
  {}

  lemma AreAllIds(children: seq<Node>, mentioned: seq<string>, ids: map<Node, string>)
    requires AreIds(children, mentioned, ids) && |mentioned| == |children|
    ensures AreChildIds(children, mentioned, ids)
  {}

  /** Every type known now and not before is reached from `from`. */
  ghost predicate AllReached(facts: Node -> Facts, from: Node, before: map<Node, string>, after: map<Node, string>) {
    forall n :: n in after && n !in before ==> Reachable(facts, from, n)
  }

  /** What a child reaches its parent reaches. */
  lemma ReachesMore(facts: Node -> Facts, node: Node, c: Node, first: map<Node, string>, before: map<Node, string>,
                    ids: map<Node, string>)
    requires c in Children(facts(node))
    requires AllReached(facts, node, first, before) && AllReached(facts, c, before, ids)
    ensures AllReached(facts, node, first, ids)
  {
    hide Children, Reachable;
    forall n | n in ids && n !in first ensures Reachable(facts, node, n) {
      if n !in before {
        ReachableVia(facts, node, c, n);
      }
    }
  }

  lemma ReachesNode(facts: Node -> Facts, node: Node, first: map<Node, string>, id: string, ids: map<Node, string>)
    requires AllReached(facts, node, first[node := id], ids)
    ensures AllReached(facts, node, first, ids)
  {
    ReachableSelf(facts, node);
    hide Reachable;
  }

  lemma ReachesNothing(facts: Node -> Facts, node: Node, ids: map<Node, string>)
    ensures AllReached(facts, node, ids, ids)
  {}

  // ----- the walk as it runs

  class Shapes {
    const facts: Node -> Facts
    var ids: map<Node, string>
    var schemas: map<string, Shape>
    ghost const nodes: set<Node>
    ghost var rank: map<Node, nat>
    ghost var pending: set<Node>

    constructor (facts: Node -> Facts, ghost nodes: set<Node>)
      requires IsGraph(facts, nodes)
      ensures Valid() && this.facts == facts && this.nodes == nodes && ids == map[] && pending == {}
    {
      this.facts, this.nodes, ids, schemas, rank, pending := facts, nodes, map[], map[], map[], {};
    }

    ghost function Current(): Memo
      reads this
    {
      Memo(ids, schemas, rank, pending)
    }

    ghost predicate Valid()
      reads this
    {
      IsGraph(facts, nodes) && IsMemo(facts, nodes, Current())
    }

    /** `schema`: the type's id, its whole graph visited unless it was known. */
    method Schema(node: Node) returns (id: string)
      requires Valid() && node in nodes
      modifies this
      ensures Valid() && pending == old(pending) && Extends(old(ids), ids)
      ensures node in ids && ids[node] == id
      ensures AllReached(facts, node, old(ids), ids)
      decreases |nodes - ids.Keys|, 0
    {
      hide *;
      if node in ids {
        ExtendsSame(ids);
        ReachesNothing(facts, node, ids);
        return ids[node];
      }
      id := Render(|ids|);
      Begin(node, id);
      ghost var began := ids;
      ExtendsOne(old(ids), node, id);
      ShrinkBy(nodes, old(ids).Keys, node);
      var mentioned := SchemaAll(node, Children(facts(node)));
      ExtendsTransitive(old(ids), began, ids);
      ExtendsAt(began, ids, node);
      ReachesNode(facts, node, old(ids), id, ids);
      Finish(node, id, mentioned);
    }

    method Begin(node: Node, id: string)
      requires Valid() && node in nodes && node !in ids && id == Render(|ids|)
      modifies this`ids, this`schemas, this`rank, this`pending
      ensures Valid() && ids == old(ids)[node := id] && pending == old(pending) + {node} && node !in old(pending)
    {
      hide IsMemo, IsGraph, Render, Begun;
      ghost var m := Current();
      BegunIsMemo(facts, nodes, m, node);
      PendingKnown(facts, nodes, m);
      BegunIs(m, node);
      ids, schemas, rank, pending := ids[node := id], schemas[id := Pending], rank[node := |ids|], pending + {node};
      assert Current() == Begun(m, node);
    }

    method Finish(node: Node, id: string, mentioned: seq<string>)
      requires Valid() && node in pending && node in ids && ids[node] == id
      requires AreChildIds(Children(facts(node)), mentioned, ids)
      modifies this`schemas, this`pending
      ensures Valid() && pending == old(pending) - {node}
    {
      hide IsMemo, IsGraph, ShapeWith, Children;
      var shape := ShapeWith(facts(node), mentioned);
      FinishedIsMemo(facts, nodes, Current(), node, shape);
      ghost var next := Finished(Current(), node, shape);
      schemas, pending := schemas[id := shape], pending - {node};
      assert Current() == next;
    }

    /** The children of one type, in order. */
    method SchemaAll(node: Node, children: seq<Node>) returns (mentioned: seq<string>)
      requires Valid() && node in nodes && children == Children(facts(node))
      modifies this
      ensures Valid() && pending == old(pending) && Extends(old(ids), ids)
      ensures AreChildIds(children, mentioned, ids)
      ensures AllReached(facts, node, old(ids), ids)
      decreases |nodes - ids.Keys|, 1
    {
      hide *;
      mentioned := [];
      ExtendsSame(ids);
      ReachesNothing(facts, node, ids);
      NoIds(children, ids);
      for i := 0 to |children|
        invariant Valid() && pending == old(pending) && Extends(old(ids), ids)
        invariant |mentioned| == i && AreIds(children, mentioned, ids)
        invariant AllReached(facts, node, old(ids), ids)
        invariant |nodes - ids.Keys| <= |nodes - old(ids).Keys|
      {
        var c := children[i];
        ChildInGraph(node, c);
        ghost var before := ids;
        var id := Schema(c);
        ReachesMore(facts, node, c, old(ids), before, ids);
        ExtendsTransitive(old(ids), before, ids);
        ExtendsKeys(before, ids);
        Shrinks(nodes, before.Keys, ids.Keys);
        AreIdsSnoc(children, mentioned, before, ids, id);
        mentioned := mentioned + [id];
      }
      AreAllIds(children, mentioned, ids);
    }

    lemma ChildInGraph(node: Node, c: Node)
      requires Valid() && node in nodes && c in Children(facts(node))
      ensures c in nodes
    {}

    /** `visit`: both types of every registered reducer. */
    method Roots(reducers: seq<(string, Node, Node)>) returns (roots: seq<(string, string, string)>)
      requires Valid() && pending == {} && forall r :: r in reducers ==> r.1 in nodes && r.2 in nodes
      modifies this
      ensures Valid() && pending == {}
      ensures |roots| == |reducers|
      ensures forall i :: 0 <= i < |roots| ==>
                reducers[i].1 in ids && reducers[i].2 in ids
                    && roots[i] == (reducers[i].0, ids[reducers[i].1], ids[reducers[i].2])
    {
      hide Valid, IsMemo, IsGraph, AllReached;
      roots := [];
      for i := 0 to |reducers|
        invariant Valid() && pending == {} && |roots| == i
        invariant forall k :: 0 <= k < i ==>
                    reducers[k].1 in ids && reducers[k].2 in ids
                        && roots[k] == (reducers[k].0, ids[reducers[k].1], ids[reducers[k].2])
      {
        assert reducers[i] in reducers;
        var acc := Schema(reducers[i].1);
        var value := Schema(reducers[i].2);
        roots := roots + [(reducers[i].0, acc, value)];
      }
    }
  }

  lemma BegunIs(m: Memo, n: Node)
    ensures Begun(m, n) == Memo(m.ids[n := Render(|m.ids|)], m.schemas[Render(|m.ids|) := Pending],
                                m.rank[n := |m.ids|], m.pending + {n})
  {}

  lemma PendingKnown(facts: Node -> Facts, nodes: set<Node>, m: Memo)
    requires IsMemo(facts, nodes, m)
    ensures m.pending <= m.ids.Keys
  {}

  lemma ShrinkBy(nodes: set<Node>, seen: set<Node>, n: Node)
    requires n in nodes && n !in seen
    ensures |nodes - (seen + {n})| < |nodes - seen|
  {
    assert nodes - (seen + {n}) == (nodes - seen) - {n};
  }

  lemma Shrinks(nodes: set<Node>, a: set<Node>, b: set<Node>)
    requires a <= b
    ensures |nodes - b| <= |nodes - a|
  {
    assert nodes - a == (nodes - b) + ((nodes - a) - (nodes - b));
  }

  // ----- a finished walk

  /** Once nothing is pending, every known type has the shape its facts give over its children's ids,
      every id a shape mentions is defined, and with a type every type reachable from it is known. */
  lemma FinishedMemo(facts: Node -> Facts, nodes: set<Node>, m: Memo)
    requires IsMemo(facts, nodes, m) && m.pending == {}
    ensures forall n :: n in m.ids ==> IsSettled(facts, m, n)
    ensures forall id :: id in m.schemas ==> m.schemas[id] != Pending
    ensures forall id, i :: id in m.schemas && 0 <= i < |Mentions(m.schemas[id])| ==>
              Mentions(m.schemas[id])[i] in m.schemas
    ensures forall n, to :: n in m.ids && Reachable(facts, n, to) ==> to in m.ids
  {
    hide IsSettled, ShapeWith, Children, Mentions, Reachable;
    forall id | id in m.schemas
      ensures m.schemas[id] != Pending
                && forall i :: 0 <= i < |Mentions(m.schemas[id])| ==> Mentions(m.schemas[id])[i] in m.schemas
    {
      var n :| n in m.ids && m.ids[n] == id;
      SettledMentions(facts, nodes, m, n);
    }
    forall n, to | n in m.ids && Reachable(facts, n, to) ensures to in m.ids {
      KnownReachable(facts, nodes, m, n, to);
    }
  }

  lemma SettledMentions(facts: Node -> Facts, nodes: set<Node>, m: Memo, n: Node)
    requires IsMemo(facts, nodes, m) && n in m.ids && n !in m.pending
    ensures m.ids[n] in m.schemas
    ensures var s := m.schemas[m.ids[n]];
            && s != Pending
            && forall i :: 0 <= i < |Mentions(s)| ==> Mentions(s)[i] in m.schemas
  {
    hide ShapeWith, Children, Mentions;
    assert IsSettled(facts, m, n);
    var children := Children(facts(n));
    ShapeMentions(facts(n), IdsOf(children, m.ids));
    forall i | 0 <= i < |children| ensures m.ids[children[i]] in m.schemas {
      assert children[i] in children;
    }
  }

  lemma KnownReachable(facts: Node -> Facts, nodes: set<Node>, m: Memo, n: Node, to: Node)
    requires IsMemo(facts, nodes, m) && m.pending == {} && n in m.ids && Reachable(facts, n, to)
    ensures to in m.ids
  {
    hide Children, ShapeWith;
    var path :| IsPath(facts, path) && path[0] == n && path[|path| - 1] == to;
    forall k, c | k in m.ids.Keys && c in Children(facts(k)) ensures c in m.ids.Keys {
      assert IsSettled(facts, m, k);
    }
    ClosedHoldsPath(facts, m.ids.Keys, path, |path| - 1);
  }

  /** An outermost call on an empty memo knows exactly the types reachable from its argument, each
      under one id of its own. */
  method OutermostSchema(facts: Node -> Facts, ghost nodes: set<Node>, node: Node) returns (id: string, shapes: Shapes)
    requires IsGraph(facts, nodes) && node in nodes
    ensures fresh(shapes) && shapes.Valid() && shapes.pending == {} && node in shapes.ids && shapes.ids[node] == id
    ensures forall n :: n in shapes.ids <==> Reachable(facts, node, n)
    ensures forall a, b :: a in shapes.ids && b in shapes.ids && shapes.ids[a] == shapes.ids[b] ==> a == b
    ensures forall i :: i in shapes.schemas ==> shapes.schemas[i] != Pending
    ensures forall i, k :: i in shapes.schemas && 0 <= k < |Mentions(shapes.schemas[i])| ==>
              Mentions(shapes.schemas[i])[k] in shapes.schemas
  {
    hide IsSettled, IsGraph, Reachable, Mentions, IsNumbered;
    shapes := new Shapes(facts, nodes);
    id := shapes.Schema(node);
    ghost var m := shapes.Current();
    FinishedMemo(facts, nodes, m);
    forall a, b | a in m.ids && b in m.ids && m.ids[a] == m.ids[b] ensures a == b {
      IdsInjective(m, a, b);
    }
  }
}
