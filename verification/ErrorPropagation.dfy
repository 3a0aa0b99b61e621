/**
 Flattening of an error tree into rows with a depth and a dotted path
 (pkg/analyzer/report/error_propagation.go).
 */
module ErrorPropagation {
  import opened Basics
  import opened Text
  import opened Trees

  datatype Exception = Exception(kind: string, message: string)

  /** The fields of a model.ErrorTreeNode; exceptions holds, per error span, its exceptions. */
  datatype Node = Node(
    serviceName: string,
    id: string,
    url: string,
    isError: bool,
    isTraced: bool,
    exceptions: seq<seq<Exception>>)

  type ErrorTree = Tree<Node>

  /** What a row says about its node. */
  datatype Facts = Facts(
    service: string,
    instance: string,
    url: string,
    isError: bool,
    isTraced: bool,
    errorTypes: seq<string>,
    errorMessages: seq<string>)

  datatype Row = Row(facts: Facts, depth: nat, path: string)

  function Types(xs: seq<Exception>): seq<string> {
    seq(|xs|, i requires 0 <= i < |xs| => xs[i].kind)
  }

  function Messages(xs: seq<Exception>): seq<string> {
    seq(|xs|, i requires 0 <= i < |xs| => xs[i].message)
  }

  function FactsOf(n: Node): Facts {
    Facts(n.serviceName, n.id, n.url, n.isError, n.isTraced, Types(Flat(n.exceptions)), Messages(Flat(n.exceptions)))
  }

  /** The rows of a subtree whose node is child number index under path. */
  function Emit(t: ErrorTree, path: string, index: nat, depth: nat): seq<Row>
    decreases t, 1
  {
    var current := path + Dec(index) + ".";
    [Row(FactsOf(t.node), depth, current)] + EmitAll(t.children, current, 0, depth + 1)
  }

  function EmitAll(ts: seq<ErrorTree>, path: string, index: nat, depth: nat): seq<Row>
    decreases ts, 0
  {
    if ts == [] then [] else Emit(ts[0], path, index, depth) + EmitAll(ts[1..], path, index + 1, depth)
  }

  class Propagation {
    var errorNodes: seq<Row>

    constructor (node: ErrorTree)
      ensures errorNodes == Emit(node, "", 0, 1)
    {
      errorNodes := [];
      new;
      CollectErrorNodes(node, "", 0, 1);
    }

    method CollectErrorNodes(t: ErrorTree, path: string, index: nat, depth: nat)
      modifies this
      ensures errorNodes == old(errorNodes) + Emit(t, path, index, depth)
      decreases t
    {
      var currentPath := path + Dec(index) + ".";
      var types, messages := [], [];
      var spans := t.node.exceptions;
      for i := 0 to |spans|
        invariant types == Types(Flat(spans[..i])) && messages == Messages(Flat(spans[..i]))
      {
        assert spans[..i + 1][..i] == spans[..i];
        ghost var before := Flat(spans[..i]);
        for j := 0 to |spans[i]|
          invariant types == Types(before + spans[i][..j]) && messages == Messages(before + spans[i][..j])
        {
          types := types + [spans[i][j].kind];
          messages := messages + [spans[i][j].message];
        }
        assert spans[i][..|spans[i]|] == spans[i];
      }
      assert spans[..|spans|] == spans;

      ghost var start := errorNodes;
      errorNodes := errorNodes + [Row(
        Facts(t.node.serviceName, t.node.id, t.node.url, t.node.isError, t.node.isTraced, types, messages),
        depth, currentPath)];
      ghost var head := errorNodes;
      var children := t.children;
      assert children[0..] == children;
      for i := 0 to |children|
        invariant errorNodes + EmitAll(children[i..], currentPath, i, depth + 1) ==
          head + EmitAll(children, currentPath, 0, depth + 1)
      {
        ghost var now := errorNodes;
        ghost var rest := EmitAll(children[i + 1..], currentPath, i + 1, depth + 1);
        assert children[i..][0] == children[i] && children[i..][1..] == children[i + 1..];
        CollectErrorNodes(children[i], currentPath, i, depth + 1);
        assert errorNodes + rest == now + (Emit(children[i], currentPath, i, depth + 1) + rest);
      }
      assert errorNodes + [] == errorNodes;
    }

    /** One of the nine column getters. */
    method Column<T>(field: Row -> T) returns (result: seq<T>)
      ensures |result| == |errorNodes| && forall i :: 0 <= i < |result| ==> result[i] == field(errorNodes[i])
    {
      result := [];
      for i := 0 to |errorNodes|
        invariant |result| == i && forall j :: 0 <= j < i ==> result[j] == field(errorNodes[j])
      {
        result := result + [field(errorNodes[i])];
      }
    }
  }

  // ---------------------------------------------------------------- addresses

  /** The addresses of a tree in the order of its rows. */
  ghost function Addresses(t: ErrorTree): seq<seq<nat>>
    decreases t, 1
  {
    [[]] + AddressesAll(t.children, 0)
  }

  ghost function AddressesAll(ts: seq<ErrorTree>, i: nat): seq<seq<nat>>
    decreases ts, 0
  {
    if ts == [] then [] else Prefixed(i, Addresses(ts[0])) + AddressesAll(ts[1..], i + 1)
  }

  /** The row of the node at an address below the one that base leads to. */
  function RowAt(t: ErrorTree, a: seq<nat>, base: seq<nat>): Row
    requires HasAddress(t, a)
  {
    Row(FactsOf(At(t, a).node), |base| + |a|, Dotted(base + a))
  }

  ghost predicate RowsAt(rows: seq<Row>, t: ErrorTree, addresses: seq<seq<nat>>, base: seq<nat>) {
    |rows| == |addresses| &&
    forall k :: 0 <= k < |rows| ==> HasAddress(t, addresses[k]) && rows[k] == RowAt(t, addresses[k], base)
  }

  lemma {:induction false} EmitAt(t: ErrorTree, base: seq<nat>, index: nat)
    ensures RowsAt(Emit(t, Dotted(base), index, |base| + 1), t, Addresses(t), base + [index])
    decreases t, 1
  {
    DottedSnoc(base, index);
    var here := base + [index];
    EmitAllAt(t, t.children, here, 0);
    assert here + [] == here;
  }

  /** Rows of the children from number i on, as rows of the parent. */
  lemma {:induction false} EmitAllAt(parent: ErrorTree, ts: seq<ErrorTree>, base: seq<nat>, i: nat)
    requires i <= |parent.children| && ts == parent.children[i..]
    ensures RowsAt(EmitAll(ts, Dotted(base), i, |base| + 1), parent, AddressesAll(ts, i), base)
    decreases ts, 0
  {
    if ts != [] {
      EmitAt(ts[0], base, i);
      EmitAllAt(parent, ts[1..], base, i + 1);
      var rows, addresses := Emit(ts[0], Dotted(base), i, |base| + 1), Addresses(ts[0]);
      forall k | 0 <= k < |rows|
        ensures HasAddress(parent, [i] + addresses[k]) && rows[k] == RowAt(parent, [i] + addresses[k], base)
      {
        assert ([i] + addresses[k])[1..] == addresses[k];
        assert base + ([i] + addresses[k]) == (base + [i]) + addresses[k];
      }
    }
  }

  ghost predicate InPreorder(addresses: seq<seq<nat>>) {
    forall k, l :: 0 <= k < l < |addresses| ==> Before(addresses[k], addresses[l])
  }

  lemma {:induction false} PreorderTree(t: ErrorTree)
    ensures InPreorder(Addresses(t))
    decreases t, 1
  {
    PreorderAll(t.children, 0);
  }

  lemma {:induction false} PreorderAll(ts: seq<ErrorTree>, i: nat)
    ensures InPreorder(AddressesAll(ts, i))
    ensures forall a :: a in AddressesAll(ts, i) ==> a != [] && a[0] >= i
    decreases ts, 0
  {
    if ts != [] {
      PreorderTree(ts[0]);
      PreorderAll(ts[1..], i + 1);
      var own, all := Addresses(ts[0]), AddressesAll(ts, i);
      var first, rest := Prefixed(i, own), AddressesAll(ts[1..], i + 1);
      forall k, l | 0 <= k < l < |all|
        ensures Before(all[k], all[l])
      {
        if l < |first| {
          assert Before(own[k], own[l]);
          assert first[k][1..] == own[k] && first[l][1..] == own[l];
        } else {
          assert all[l] == rest[l - |first|] && rest[l - |first|] in rest;
          if k >= |first| {
            assert all[k] == rest[k - |first|];
          }
        }
      }
    }
  }

  lemma {:induction false} AllListed(t: ErrorTree, a: seq<nat>)
    requires HasAddress(t, a)
    ensures a in Addresses(t)
    decreases t, 1
  {
    if a == [] {
      assert Addresses(t)[0] == [];
    } else {
      AllListedChildren(t, t.children, a, 0);
    }
  }

  lemma {:induction false} AllListedChildren(t: ErrorTree, ts: seq<ErrorTree>, a: seq<nat>, i: nat)
    requires a != [] && i <= a[0] < |t.children| && ts == t.children[i..]
    requires HasAddress(t, a)
    ensures a in AddressesAll(ts, i)
    decreases ts, 0
  {
    if a[0] == i {
      AllListed(ts[0], a[1..]);
      var k :| 0 <= k < |Addresses(ts[0])| && Addresses(ts[0])[k] == a[1..];
      assert Prefixed(i, Addresses(ts[0]))[k] == [i] + a[1..] == a;
    } else {
      AllListedChildren(t, ts[1..], a, i + 1);
    }
  }

  /**
   The rows of a tree are its nodes in preorder, each once: row k describes the
   node at the k-th address, with the address as its path and its length as depth.
   */
  lemma RowsAreNodes(t: ErrorTree)
    ensures var rows, ads := Emit(t, "", 0, 1), Addresses(t);
      && RowsAt(rows, t, ads, [0]) && InPreorder(ads)
      && forall a :: a in ads <==> HasAddress(t, a)
  {
    assert Dotted([]) == "" && [] + [0] == [0];
    EmitAt(t, [], 0);
    PreorderTree(t);
    var ads := Addresses(t);
    assert forall k :: 0 <= k < |ads| ==> HasAddress(t, ads[k]);
    forall a | HasAddress(t, a)
      ensures a in ads
    {
      AllListed(t, a);
    }
  }

  /**
   Paths are pairwise distinct, the depth is the number of dots, and one path is
   a proper prefix of another exactly when the other node lies below the first.
   */
  lemma PathsTellAncestry(t: ErrorTree, k: nat, l: nat)
    requires k < |Emit(t, "", 0, 1)| && l < |Emit(t, "", 0, 1)|
    ensures |Addresses(t)| == |Emit(t, "", 0, 1)|
    ensures var rows := Emit(t, "", 0, 1);
      && rows[k].depth == Count(rows[k].path, '.')
      && (rows[k].path == rows[l].path <==> k == l)
      && (rows[k].path < rows[l].path <==> Addresses(t)[k] < Addresses(t)[l])
  {
    RowsAreNodes(t);
    var rows, ads := Emit(t, "", 0, 1), Addresses(t);
    var a, b := [0] + ads[k], [0] + ads[l];
    assert rows[k].path == Dotted(a) && rows[l].path == Dotted(b);
    DottedDots(a);
    DottedPrefix(a, b);
    assert a[1..] == ads[k] && b[1..] == ads[l];
    if k != l {
      assert Before(ads[k], ads[l]) || Before(ads[l], ads[k]);
      if k < l {
        BeforeDistinct(ads[k], ads[l]);
      } else {
        BeforeDistinct(ads[l], ads[k]);
      }
    }
    if rows[k].path == rows[l].path {
      DottedInjective(a, b);
    }
    assert ads[k] <= ads[l] <==> a <= b by {
      if a <= b {
        assert ads[k] == b[1..][..|ads[k]|];
      }
      if ads[k] <= ads[l] {
        assert a == b[..|a|];
      }
    }
  }

  // ---------------------------------------------------------------- reconstruction

  /** A tree of what the rows say. */
  datatype Shape = Shape(facts: Facts, children: seq<Shape>)

  function ShapeOf(t: ErrorTree): Shape
    decreases t, 1
  {
    Shape(FactsOf(t.node), ShapesOf(t.children))
  }

  function ShapesOf(ts: seq<ErrorTree>): seq<Shape>
    decreases ts, 0
  {
    if ts == [] then [] else [ShapeOf(ts[0])] + ShapesOf(ts[1..])
  }

  /** Reads the trees whose roots have the given number of dots off the front of the rows. */
  function Parse(rows: seq<Row>, dots: nat): (r: (seq<Shape>, seq<Row>))
    ensures |r.1| <= |rows|
    decreases |rows|
  {
    if rows == [] || Count(rows[0].path, '.') != dots then ([], rows)
    else
      var below := Parse(rows[1..], dots + 1);
      var beside := Parse(below.1, dots);
      ([Shape(rows[0].facts, below.0)] + beside.0, beside.1)
  }

  /** The rows that follow a subtree belong to no node below its parent. */
  ghost predicate Shallow(rest: seq<Row>, dots: nat) {
    rest == [] || Count(rest[0].path, '.') < dots
  }

  lemma {:induction false} ParseEmitAll(ts: seq<ErrorTree>, base: seq<nat>, i: nat, depth: nat, rest: seq<Row>)
    requires Shallow(rest, |base| + 1)
    ensures Parse(EmitAll(ts, Dotted(base), i, depth) + rest, |base| + 1) == (ShapesOf(ts), rest)
    decreases ts
  {
    if ts == [] {
      assert [] + rest == rest;
    } else {
      var t := ts[0];
      var here := base + [i];
      DottedSnoc(base, i);
      DottedDots(here);
      var after := EmitAll(ts[1..], Dotted(base), i + 1, depth) + rest;
      var below := EmitAll(t.children, Dotted(here), 0, depth + 1);
      var head := Row(FactsOf(t.node), depth, Dotted(here));
      FirstThenRest(ts, base, i, depth, rest);
      var rows := EmitAll(ts, Dotted(base), i, depth) + rest;
      assert rows[0] == head && rows[1..] == below + after;
      AfterIsShallow(ts[1..], base, i + 1, depth, rest);
      ParseEmitAll(t.children, here, 0, depth + 1, after);
      ParseEmitAll(ts[1..], base, i + 1, depth, rest);
    }
  }

  lemma FirstThenRest(ts: seq<ErrorTree>, base: seq<nat>, i: nat, depth: nat, rest: seq<Row>)
    requires ts != []
    ensures EmitAll(ts, Dotted(base), i, depth) + rest ==
      [Row(FactsOf(ts[0].node), depth, Dotted(base + [i]))] +
      (EmitAll(ts[0].children, Dotted(base + [i]), 0, depth + 1) +
       (EmitAll(ts[1..], Dotted(base), i + 1, depth) + rest))
  {
    DottedSnoc(base, i);
  }

  lemma AfterIsShallow(ts: seq<ErrorTree>, base: seq<nat>, i: nat, depth: nat, rest: seq<Row>)
    requires Shallow(rest, |base| + 1)
    ensures Shallow(EmitAll(ts, Dotted(base), i, depth) + rest, |base| + 2)
  {
    if ts == [] {
      assert EmitAll(ts, Dotted(base), i, depth) + rest == rest;
    } else {
      DottedSnoc(base, i);
      DottedDots(base + [i]);
      var first, others := Emit(ts[0], Dotted(base), i, depth), EmitAll(ts[1..], Dotted(base), i + 1, depth);
      assert |first| > 0 && EmitAll(ts, Dotted(base), i, depth) == first + others;
      assert (first + others + rest)[0] == first[0];
    }
  }

  /** The tree's shape and node data can be read back from the rows, by their paths alone. */
  lemma Reconstruct(t: ErrorTree)
    ensures Parse(Emit(t, "", 0, 1), 1) == ([ShapeOf(t)], [])
  {
    assert Dotted([]) == "";
    ParseEmitAll([t], [], 0, 1, []);
    assert [t][1..] == [];
    assert EmitAll([t], "", 0, 1) + [] == Emit(t, "", 0, 1);
    assert [ShapeOf(t)] + [] == [ShapeOf(t)];
  }

  // ---------------------------------------------------------------- columns

  /** The nine columns that are written to the table. */
  datatype Columns = Columns(
    services: seq<string>,
    instances: seq<string>,
    urls: seq<string>,
    isErrors: seq<bool>,
    isTraceds: seq<bool>,
    errorTypes: seq<seq<string>>,
    errorMessages: seq<seq<string>>,
    depths: seq<nat>,
    paths: seq<string>)

  method GetColumns(p: Propagation) returns (c: Columns)
    ensures SameLength(c) && FromColumns(c) == p.errorNodes
  {
    var services := p.Column((r: Row) => r.facts.service);
    var instances := p.Column((r: Row) => r.facts.instance);
    var urls := p.Column((r: Row) => r.facts.url);
    var isErrors := p.Column((r: Row) => r.facts.isError);
    var isTraceds := p.Column((r: Row) => r.facts.isTraced);
    var errorTypes := p.Column((r: Row) => r.facts.errorTypes);
    var errorMessages := p.Column((r: Row) => r.facts.errorMessages);
    var depths := p.Column((r: Row) => r.depth);
    var paths := p.Column((r: Row) => r.path);
    c := Columns(services, instances, urls, isErrors, isTraceds, errorTypes, errorMessages, depths, paths);
  }

  predicate SameLength(c: Columns) {
    && |c.services| == |c.instances| == |c.urls| == |c.isErrors| == |c.isTraceds|
    && |c.services| == |c.errorTypes| == |c.errorMessages| == |c.depths| == |c.paths|
  }

  function FromColumns(c: Columns): seq<Row>
    requires SameLength(c)
  {
    seq(|c.paths|, i requires 0 <= i < |c.paths| =>
      Row(Facts(c.services[i], c.instances[i], c.urls[i], c.isErrors[i], c.isTraceds[i],
                c.errorTypes[i], c.errorMessages[i]), c.depths[i], c.paths[i]))
  }

  /**
   Column by column, the k-th row is that of the node at the k-th address: its own
   fields and its exceptions in order.
   */
  ghost predicate ColumnsSay(c: Columns, t: ErrorTree, ads: seq<seq<nat>>)
    requires SameLength(c)
  {
    |c.paths| == |ads| &&
    forall k :: 0 <= k < |ads| ==> HasAddress(t, ads[k]) && SaysNode(c, k, At(t, ads[k]).node, ads[k])
  }

  ghost predicate SaysNode(c: Columns, k: nat, n: Node, a: seq<nat>)
    requires SameLength(c) && k < |c.paths|
  {
    var xs := Flat(n.exceptions);
    && c.services[k] == n.serviceName && c.instances[k] == n.id && c.urls[k] == n.url
    && c.isErrors[k] == n.isError && c.isTraceds[k] == n.isTraced
    && c.depths[k] == |a| + 1 && c.paths[k] == Dotted([0] + a)
    && |c.errorTypes[k]| == |c.errorMessages[k]| == |xs|
    && forall i :: 0 <= i < |xs| ==> c.errorTypes[k][i] == xs[i].kind && c.errorMessages[k][i] == xs[i].message
  }

  lemma RowsSayNodes(c: Columns, t: ErrorTree)
    requires SameLength(c) && FromColumns(c) == Emit(t, "", 0, 1)
    ensures ColumnsSay(c, t, Addresses(t))
  {
    RowsAreNodes(t);
    var rows, ads := Emit(t, "", 0, 1), Addresses(t);
    forall k | 0 <= k < |ads|
      ensures HasAddress(t, ads[k]) && SaysNode(c, k, At(t, ads[k]).node, ads[k])
    {
      assert rows[k] == RowAt(t, ads[k], [0]) && rows[k] == FromColumns(c)[k];
    }
  }

  /** From the tree to the columns and back, and what the columns say of its nodes. */
  method ColumnsKeepTheTree(t: ErrorTree) returns (c: Columns)
    ensures SameLength(c) && Parse(FromColumns(c), 1) == ([ShapeOf(t)], [])
    ensures ColumnsSay(c, t, Addresses(t)) && forall a :: a in Addresses(t) <==> HasAddress(t, a)
  {
    var p := new Propagation(t);
    c := GetColumns(p);
    Reconstruct(t);
    RowsSayNodes(c, t);
    RowsAreNodes(t);
  }
}
