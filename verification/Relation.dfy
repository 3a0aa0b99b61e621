/**
 The rows of a service relation (pkg/analyzer/report/relation.go): one server
 row per node that is linked to its parent, and below it one client row per
 call that no known service answers.
 */
module Relation {
  import opened Basics
  import opened Text
  import opened Trees
  import opened ExternalFactory
  import opened Topology

  datatype Row = Row(
    path: string,
    parentService: string,
    parentUrl: string,
    parentTraced: bool,
    clientGroup: string,
    clientType: string,
    clientPeer: string,
    clientKey: string,
    service: string,
    url: string,
    isTraced: bool,
    isAsync: bool)

  function ClientRow(path: string, client: External, n: TopoNode): Row {
    Row(path, n.info.serviceName, n.info.url, false, client.group, client.typ, client.peer, client.name,
        "", "", false, false)
  }

  function ServerRow(path: string, client: Option<External>, n: TopoNode, parent: Option<TopoNode>): Row {
    var p := if parent.Some? then (parent.value.info.serviceName, parent.value.info.url, parent.value.info.isTraced)
             else ("", "", false);
    var c := if client.Some? then (client.value.group, client.value.typ, client.value.peer, client.value.name)
             else ("", "", "", "");
    Row(path, p.0, p.1, p.2, c.0, c.1, c.2, c.3,
        n.info.serviceName, n.info.url, n.info.isTraced, client.Some? && client.value.group == "mq")
  }

  /** The last consumer external of a node. */
  function ConsumerSide(externals: seq<External>): (e: Option<External>)
    ensures e.None? <==> forall x :: x in externals ==> !x.kind.Consumer?
  {
    if externals == [] then None
    else
      var n := |externals| - 1;
      if externals[n].kind.Consumer? then Some(externals[n])
      else
        assert forall x :: x in externals <==> x == externals[n] || x in externals[..n];
        ConsumerSide(externals[..n])
  }

  /** The calls of a node that have no known other side. */
  function ClientSides(externals: seq<External>): seq<External> {
    if externals == [] then []
    else
      var n := |externals| - 1;
      ClientSides(externals[..n]) +
      (if !externals[n].kind.Consumer? && externals[n].nextSpanId == "" then [externals[n]] else [])
  }

  function ServiceSide(n: TopoNode, parent: Option<TopoNode>): Option<External> {
    if ConsumerSide(n.externals).Some? then ConsumerSide(n.externals) else ParentSide(n, parent)
  }

  /** A root, or a node that knows through which call it was reached. */
  predicate Linked(n: TopoNode, parent: Option<TopoNode>) {
    parent.None? || ServiceSide(n, parent).Some?
  }

  function ClientRows(clients: seq<External>, path: string, from: nat, n: TopoNode): seq<Row> {
    seq(|clients|, i requires 0 <= i < |clients| => ClientRow(path + Dec(from + i) + ".", clients[i], n))
  }

  /** The rows of a subtree whose node is child number index under path. */
  function Rows(t: Tree<TopoNode>, parent: Option<TopoNode>, path: string, index: nat): seq<Row>
    decreases t, 1
  {
    if !Linked(t.node, parent) then []
    else
      var current := path + Dec(index) + ".";
      OwnRows(current, ServiceSide(t.node, parent), ClientSides(t.node.externals), |t.children|, t.node, parent) +
      RowsAll(t.children, t.node, current, 0)
  }

  /** The rows that a kept node adds itself. */
  function OwnRows(path: string, side: Option<External>, clients: seq<External>, from: nat, n: TopoNode,
                   parent: Option<TopoNode>): seq<Row>
  {
    [ServerRow(path, side, n, parent)] + ClientRows(clients, path, from, n)
  }

  function RowsAll(ts: seq<Tree<TopoNode>>, parent: TopoNode, path: string, index: nat): seq<Row>
    decreases ts, 0
  {
    if ts == [] then [] else Rows(ts[0], Some(parent), path, index) + RowsAll(ts[1..], parent, path, index + 1)
  }

  class Relation {
    const rootNode: TopologyNode
    var relationships: seq<Row>

    constructor (node: TopologyNode)
      ensures rootNode == node && relationships == []
    {
      rootNode, relationships := node, [];
    }

    /** A first call collects the rows of the tree, a further call changes nothing. */
    method CollectRelationships(ghost t: Tree<TopoNode>)
      requires Represents(rootNode, null, t)
      requires relationships == [] || relationships == Rows(t, None, t.node.info.spanId + "_", 0)
      modifies this
      ensures relationships == Rows(t, None, t.node.info.spanId + "_", 0) != []
      ensures old(relationships) != [] ==> relationships == old(relationships)
    {
      if |relationships| == 0 {
        CollectRelationship(rootNode, rootNode.value.info.spanId + "_", 0, t, None);
      }
    }

    method CollectRelationship(node: TopologyNode, path: string, index: nat,
                               ghost t: Tree<TopoNode>, ghost parent: Option<TopoNode>)
      requires Represents(node, node.parent, t)
      requires parent == if node.parent == null then None else Some(node.parent.value)
      modifies this
      ensures relationships == old(relationships) + Rows(t, parent, path, index)
      decreases t
    {
      var currentPath := path + Dec(index) + ".";
      var serviceSide, clientSides := NodeSides(node);
      if node.parent != null && serviceSide.None? {
        assert relationships + [] == relationships;
        return;
      }
      var p := if node.parent == null then None else Some(node.parent.value);
      ghost var before := relationships;
      AddOwn(currentPath, serviceSide, clientSides, |node.children|, node.value, p);
      AddChildren(node, currentPath, t);
      Regroup(before, OwnRows(currentPath, serviceSide, clientSides, |t.children|, t.node, parent),
              RowsAll(t.children, t.node, currentPath, 0));
    }

    method NodeSides(node: TopologyNode) returns (serviceSide: Option<External>, clientSides: seq<External>)
      ensures serviceSide == ServiceSide(node.value, if node.parent == null then None else Some(node.parent.value))
      ensures clientSides == ClientSides(node.value.externals)
    {
      serviceSide, clientSides := Sides(node.value.externals);
      if serviceSide.None? {
        serviceSide := node.GetParentSideExternal();
      }
    }

    method AddOwn(path: string, side: Option<External>, clients: seq<External>, from: nat, n: TopoNode,
                  p: Option<TopoNode>)
      modifies this
      ensures relationships == old(relationships) + OwnRows(path, side, clients, from, n, p)
    {
      relationships := relationships + [ServerRow(path, side, n, p)];
      AddClients(clients, path, from, n);
    }

    /** The pass over the externals: the last consumer, and the calls without a next span. */
    method Sides(externals: seq<External>) returns (serviceSide: Option<External>, clientSides: seq<External>)
      ensures serviceSide == ConsumerSide(externals) && clientSides == ClientSides(externals)
    {
      serviceSide, clientSides := None, [];
      for i := 0 to |externals|
        invariant serviceSide == ConsumerSide(externals[..i]) && clientSides == ClientSides(externals[..i])
      {
        assert externals[..i + 1][..i] == externals[..i];
        var externalData := externals[i];
        if externalData.kind.Consumer? {
          serviceSide := Some(externalData);
        } else if externalData.nextSpanId == "" {
          clientSides := clientSides + [externalData];
        }
      }
      assert externals[..|externals|] == externals;
    }

    method AddClients(clients: seq<External>, path: string, from: nat, n: TopoNode)
      modifies this
      ensures relationships == old(relationships) + ClientRows(clients, path, from, n)
    {
      for i := 0 to |clients|
        invariant relationships == old(relationships) + ClientRows(clients, path, from, n)[..i]
      {
        relationships := relationships + [ClientRow(path + Dec(from + i) + ".", clients[i], n)];
      }
    }

    method AddChildren(node: TopologyNode, path: string, ghost t: Tree<TopoNode>)
      requires Represents(node, node.parent, t)
      modifies this
      ensures relationships == old(relationships) + RowsAll(t.children, t.node, path, 0)
      decreases t.children
    {
      ghost var ts := t.children;
      assert ts[0..] == ts;
      for i := 0 to |node.children|
        invariant relationships + RowsAll(ts[i..], t.node, path, i) == old(relationships) + RowsAll(ts, t.node, path, 0)
      {
        ghost var now, rest := relationships, RowsAll(ts[i + 1..], t.node, path, i + 1);
        assert ts[i..][0] == ts[i] && ts[i..][1..] == ts[i + 1..];
        assert Represents(node.children[i], node, ts[i]);
        CollectRelationship(node.children[i], path, i, ts[i], Some(t.node));
        Regroup(now, Rows(ts[i], Some(t.node), path, i), rest);
      }
      assert relationships + [] == relationships;
    }
  }

  // ---------------------------------------------------------------- which rows there are

  /** The node at the address and all its ancestors below the root are linked. */
  ghost predicate Kept(t: Tree<TopoNode>, parent: Option<TopoNode>, a: seq<nat>)
    requires HasAddress(t, a)
    decreases a
  {
    Linked(t.node, parent) && (a == [] || Kept(t.children[a[0]], Some(t.node), a[1..]))
  }

  /** The calls of the node at an address that get a client row. */
  ghost function Clients(t: Tree<TopoNode>, a: seq<nat>): seq<External>
    requires HasAddress(t, a)
  {
    ClientSides(At(t, a).node.externals)
  }

  ghost function NodeAbove(t: Tree<TopoNode>, parent: Option<TopoNode>, a: seq<nat>): Option<TopoNode>
    requires HasAddress(t, a)
    decreases a
  {
    if a == [] then parent else NodeAbove(t.children[a[0]], Some(t.node), a[1..])
  }

  /** What one row stands for: the node at an address, or its c-th unanswered call. */
  datatype Origin = ServerOf(a: seq<nat>) | ClientOf(a: seq<nat>, c: nat)

  ghost predicate Genuine(t: Tree<TopoNode>, parent: Option<TopoNode>, o: Origin) {
    HasAddress(t, o.a) && Kept(t, parent, o.a) && (o.ClientOf? ==> o.c < |Clients(t, o.a)|)
  }

  /** The place of a row: calls are numbered after the children. */
  ghost function Place(t: Tree<TopoNode>, o: Origin): seq<nat>
    requires HasAddress(t, o.a)
  {
    if o.ServerOf? then o.a else o.a + [|At(t, o.a).children| + o.c]
  }

  ghost function RowOf(t: Tree<TopoNode>, parent: Option<TopoNode>, o: Origin, base: string, top: seq<nat>): Row
    requires Genuine(t, parent, o)
  {
    var n, above := At(t, o.a).node, NodeAbove(t, parent, o.a);
    var path := base + Dotted(top + Place(t, o));
    if o.ServerOf? then ServerRow(path, ServiceSide(n, above), n, above)
    else ClientRow(path, Clients(t, o.a)[o.c], n)
  }

  ghost function Below(i: nat, os: seq<Origin>): (r: seq<Origin>)
    ensures |r| == |os|
    ensures forall k :: 0 <= k < |r| ==>
      r[k] == if os[k].ServerOf? then ServerOf([i] + os[k].a) else ClientOf([i] + os[k].a, os[k].c)
  {
    seq(|os|, k requires 0 <= k < |os| =>
      if os[k].ServerOf? then ServerOf([i] + os[k].a) else ClientOf([i] + os[k].a, os[k].c))
  }

  /** The origins of the rows of a tree, in their order. */
  ghost function Origins(t: Tree<TopoNode>, parent: Option<TopoNode>): seq<Origin>
    decreases t, 1
  {
    if !Linked(t.node, parent) then []
    else OwnOrigins(|ClientSides(t.node.externals)|) + OriginsAll(t.children, t.node, 0)
  }

  /** The origins of the rows that a node adds itself. */
  ghost function OwnOrigins(clients: nat): seq<Origin> {
    [ServerOf([])] + seq(clients, (c: nat) => ClientOf([], c))
  }

  ghost function OriginsAll(ts: seq<Tree<TopoNode>>, parent: TopoNode, i: nat): seq<Origin>
    decreases ts, 0
  {
    if ts == [] then [] else Below(i, Origins(ts[0], Some(parent))) + OriginsAll(ts[1..], parent, i + 1)
  }

  ghost predicate RowsFrom(rows: seq<Row>, t: Tree<TopoNode>, parent: Option<TopoNode>, os: seq<Origin>,
                           base: string, top: seq<nat>) {
    |rows| == |os| && forall k :: 0 <= k < |rows| ==> StandsFor(rows[k], t, parent, os[k], base, top)
  }

  ghost predicate StandsFor(row: Row, t: Tree<TopoNode>, parent: Option<TopoNode>, o: Origin,
                            base: string, top: seq<nat>) {
    Genuine(t, parent, o) && row == RowOf(t, parent, o, base, top)
  }

  lemma {:induction false} RowsHaveOrigins(t: Tree<TopoNode>, parent: Option<TopoNode>, base: string,
                                           top: seq<nat>, i: nat)
    ensures RowsFrom(Rows(t, parent, base + Dotted(top), i), t, parent, Origins(t, parent), base, top + [i])
    decreases t, 1
  {
    if Linked(t.node, parent) {
      var here := top + [i];
      DottedSnoc(top, i);
      assert base + Dotted(top) + Dec(i) + "." == base + Dotted(here);
      RowsAllHaveOrigins(t, parent, t.children, base, here, 0);
      OwnRowsHaveOrigins(t, parent, base, here);
      var clients := ClientSides(t.node.externals);
      RowsFromConcat(OwnRows(base + Dotted(here), ServiceSide(t.node, parent), clients, |t.children|, t.node, parent),
                     RowsAll(t.children, t.node, base + Dotted(here), 0), t, parent,
                     OwnOrigins(|clients|), OriginsAll(t.children, t.node, 0), base, here);
    }
  }

  lemma OwnRowsHaveOrigins(t: Tree<TopoNode>, parent: Option<TopoNode>, base: string, here: seq<nat>)
    requires Linked(t.node, parent)
    ensures var clients := ClientSides(t.node.externals);
      RowsFrom(OwnRows(base + Dotted(here), ServiceSide(t.node, parent), clients, |t.children|, t.node, parent),
               t, parent, OwnOrigins(|clients|), base, here)
  {
    var clients, current := ClientSides(t.node.externals), base + Dotted(here);
    ServerRowHasOrigin(t, parent, base, here);
    ClientRowsHaveOrigins(t, parent, base, here);
    var server := [ServerRow(current, ServiceSide(t.node, parent), t.node, parent)];
    RowsFromConcat(server, ClientRows(clients, current, |t.children|, t.node), t, parent,
                   [ServerOf([])], seq(|clients|, (c: nat) => ClientOf([], c)), base, here);
  }

  lemma ClientRowsHaveOrigins(t: Tree<TopoNode>, parent: Option<TopoNode>, base: string, here: seq<nat>)
    requires Linked(t.node, parent)
    ensures var clients := ClientSides(t.node.externals);
      RowsFrom(ClientRows(clients, base + Dotted(here), |t.children|, t.node),
               t, parent, seq(|clients|, (c: nat) => ClientOf([], c)), base, here)
  {
    var clients := ClientSides(t.node.externals);
    forall c: nat | c < |clients|
      ensures Genuine(t, parent, ClientOf([], c))
      ensures ClientRows(clients, base + Dotted(here), |t.children|, t.node)[c] ==
        RowOf(t, parent, ClientOf([], c), base, here)
    {
      ClientRowHasOrigin(t, parent, base, here, c);
    }
  }

  lemma RowsFromConcat(rows: seq<Row>, more: seq<Row>, t: Tree<TopoNode>, parent: Option<TopoNode>,
                       os: seq<Origin>, moreOs: seq<Origin>, base: string, top: seq<nat>)
    requires RowsFrom(rows, t, parent, os, base, top) && RowsFrom(more, t, parent, moreOs, base, top)
    ensures RowsFrom(rows + more, t, parent, os + moreOs, base, top)
  {
    var all, origins := rows + more, os + moreOs;
    forall k | 0 <= k < |all|
      ensures StandsFor(all[k], t, parent, origins[k], base, top)
    {
      if k < |rows| {
        assert StandsFor(rows[k], t, parent, os[k], base, top);
      } else {
        assert StandsFor(more[k - |rows|], t, parent, moreOs[k - |rows|], base, top);
      }
    }
  }

  lemma ServerRowHasOrigin(t: Tree<TopoNode>, parent: Option<TopoNode>, base: string, here: seq<nat>)
    requires Linked(t.node, parent)
    ensures Genuine(t, parent, ServerOf([]))
    ensures RowOf(t, parent, ServerOf([]), base, here) ==
      ServerRow(base + Dotted(here), ServiceSide(t.node, parent), t.node, parent)
  {
    assert here + [] == here;
  }

  lemma ClientRowHasOrigin(t: Tree<TopoNode>, parent: Option<TopoNode>, base: string, here: seq<nat>, c: nat)
    requires Linked(t.node, parent) && c < |ClientSides(t.node.externals)|
    ensures Genuine(t, parent, ClientOf([], c))
    ensures RowOf(t, parent, ClientOf([], c), base, here) ==
      ClientRow(base + Dotted(here) + Dec(|t.children| + c) + ".", ClientSides(t.node.externals)[c], t.node)
  {
    var number := |t.children| + c;
    DottedSnoc(here, number);
    assert Place(t, ClientOf([], c)) == [number];
    assert base + (Dotted(here) + Dec(number) + ".") == base + Dotted(here) + Dec(number) + ".";
  }

  lemma {:induction false} RowsAllHaveOrigins(t: Tree<TopoNode>, parent: Option<TopoNode>, ts: seq<Tree<TopoNode>>,
                                              base: string, here: seq<nat>, i: nat)
    requires Linked(t.node, parent) && i <= |t.children| && ts == t.children[i..]
    ensures RowsFrom(RowsAll(ts, t.node, base + Dotted(here), i), t, parent, OriginsAll(ts, t.node, i), base, here)
    decreases ts, 0
  {
    if ts != [] {
      RowsHaveOrigins(ts[0], Some(t.node), base, here, i);
      RowsAllHaveOrigins(t, parent, ts[1..], base, here, i + 1);
      var rows, os := Rows(ts[0], Some(t.node), base + Dotted(here), i), Origins(ts[0], Some(t.node));
      RowsBelow(t, parent, i, rows, os, base, here);
      RowsFromConcat(rows, RowsAll(ts[1..], t.node, base + Dotted(here), i + 1), t, parent,
                     Below(i, os), OriginsAll(ts[1..], t.node, i + 1), base, here);
    }
  }

  lemma RowsBelow(t: Tree<TopoNode>, parent: Option<TopoNode>, i: nat, rows: seq<Row>, os: seq<Origin>,
                  base: string, here: seq<nat>)
    requires Linked(t.node, parent) && i < |t.children|
    requires RowsFrom(rows, t.children[i], Some(t.node), os, base, here + [i])
    ensures RowsFrom(rows, t, parent, Below(i, os), base, here)
  {
    forall k | 0 <= k < |rows|
      ensures Genuine(t, parent, Below(i, os)[k]) && rows[k] == RowOf(t, parent, Below(i, os)[k], base, here)
    {
      RowOfBelow(t, parent, i, os[k], base, here);
    }
  }

  lemma RowOfBelow(t: Tree<TopoNode>, parent: Option<TopoNode>, i: nat, o: Origin, base: string, here: seq<nat>)
    requires Linked(t.node, parent) && i < |t.children| && Genuine(t.children[i], Some(t.node), o)
    ensures var below := Below(i, [o])[0];
      && Genuine(t, parent, below)
      && RowOf(t, parent, below, base, here) == RowOf(t.children[i], Some(t.node), o, base, here + [i])
  {
    var below := Below(i, [o])[0];
    var child := t.children[i];
    assert below.a[1..] == o.a;
    assert At(t, below.a) == At(child, o.a);
    var place := Place(child, o);
    assert Place(t, below) == [i] + place;
    Regroup(here, [i], place);
    assert NodeAbove(t, parent, below.a) == NodeAbove(child, Some(t.node), o.a);
  }

  lemma {:induction false} OriginsDistinct(t: Tree<TopoNode>, parent: Option<TopoNode>)
    ensures NoDup(Origins(t, parent))
    decreases t, 1
  {
    if Linked(t.node, parent) {
      OriginsAllDistinct(t.children, t.node, 0);
      var rest := OriginsAll(t.children, t.node, 0);
      assert forall k :: 0 <= k < |rest| ==> rest[k] in rest;
    }
  }

  lemma {:induction false} OriginsAllDistinct(ts: seq<Tree<TopoNode>>, parent: TopoNode, i: nat)
    ensures NoDup(OriginsAll(ts, parent, i))
    ensures forall o :: o in OriginsAll(ts, parent, i) ==> o.a != [] && o.a[0] >= i
    decreases ts, 0
  {
    if ts != [] {
      OriginsDistinct(ts[0], Some(parent));
      OriginsAllDistinct(ts[1..], parent, i + 1);
      var own, rest := Origins(ts[0], Some(parent)), OriginsAll(ts[1..], parent, i + 1);
      var first := Below(i, own);
      assert forall k :: 0 <= k < |rest| ==> rest[k] in rest;
      forall k, l | 0 <= k < l < |first|
        ensures first[k] != first[l]
      {
        assert own[k] != own[l];
        assert first[k].a[1..] == own[k].a && first[l].a[1..] == own[l].a;
      }
    }
  }

  lemma {:induction false} OriginsComplete(t: Tree<TopoNode>, parent: Option<TopoNode>, o: Origin)
    requires Genuine(t, parent, o)
    ensures o in Origins(t, parent)
    decreases t, 1
  {
    if o.a == [] {
      if o.ServerOf? {
        assert Origins(t, parent)[0] == o;
      } else {
        assert Origins(t, parent)[1 + o.c] == o;
      }
    } else {
      OriginsAllComplete(t, parent, t.children, o, 0);
    }
  }

  lemma {:induction false} OriginsAllComplete(t: Tree<TopoNode>, parent: Option<TopoNode>, ts: seq<Tree<TopoNode>>,
                                              o: Origin, i: nat)
    requires Genuine(t, parent, o) && o.a != [] && i <= o.a[0] < |t.children| && ts == t.children[i..]
    ensures o in OriginsAll(ts, t.node, i)
    decreases ts, 0
  {
    if o.a[0] == i {
      var below := if o.ServerOf? then ServerOf(o.a[1..]) else ClientOf(o.a[1..], o.c);
      OriginsComplete(ts[0], Some(t.node), below);
      var os := Origins(ts[0], Some(t.node));
      var k :| 0 <= k < |os| && os[k] == below;
      assert [i] + o.a[1..] == o.a;
      assert Below(i, os)[k] == o;
    } else {
      OriginsAllComplete(t, parent, ts[1..], o, i + 1);
    }
  }

  /** Two rows never share a place: calls are numbered where there is no child. */
  lemma PlaceInjective(t: Tree<TopoNode>, o: Origin, p: Origin)
    requires HasAddress(t, o.a) && HasAddress(t, p.a)
    ensures Place(t, o) == Place(t, p) <==> o == p
  {
    if Place(t, o) == Place(t, p) {
      if o.ClientOf? && p.ClientOf? {
        assert o.a == Place(t, o)[..|o.a|] && p.a == Place(t, p)[..|p.a|];
      } else if o.ClientOf? {
        AtBelow(t, o.a, [|At(t, o.a).children| + o.c]);
      } else if p.ClientOf? {
        AtBelow(t, p.a, [|At(t, p.a).children| + p.c]);
      }
    }
  }

  /**
   The rows of a topology tree: one server row for every kept node and one
   client row for each of its unanswered calls, nothing else, and all paths are
   different.
   */
  lemma RowsExact(t: Tree<TopoNode>)
    ensures var base := t.node.info.spanId + "_";
      var rows, os := Rows(t, None, base, 0), Origins(t, None);
      && RowsFrom(rows, t, None, os, base, [0]) && NoDup(os)
      && (forall o :: o in os <==> Genuine(t, None, o))
      && (forall k, l :: 0 <= k < l < |rows| ==> rows[k].path != rows[l].path)
  {
    var base := t.node.info.spanId + "_";
    var rows, os := Rows(t, None, base, 0), Origins(t, None);
    assert base + Dotted([]) == base && [] + [0] == [0];
    RowsHaveOrigins(t, None, base, [], 0);
    OriginsDistinct(t, None);
    forall o | Genuine(t, None, o)
      ensures o in os
    {
      OriginsComplete(t, None, o);
    }
    assert forall k :: 0 <= k < |os| ==> Genuine(t, None, os[k]);
    forall k, l | 0 <= k < l < |rows|
      ensures rows[k].path != rows[l].path
    {
      PlaceInjective(t, os[k], os[l]);
      var a, b := [0] + Place(t, os[k]), [0] + Place(t, os[l]);
      assert a[1..] == Place(t, os[k]) && b[1..] == Place(t, os[l]);
      if rows[k].path == rows[l].path {
        assert Dotted(a) == (base + Dotted(a))[|base|..] && Dotted(b) == (base + Dotted(b))[|base|..];
        DottedInjective(a, b);
      }
    }
  }

  /** A node is kept exactly when it and every ancestor below the root is linked to the node above it. */
  lemma {:induction false} KeptIff(t: Tree<TopoNode>, parent: Option<TopoNode>, a: seq<nat>)
    requires HasAddress(t, a)
    ensures Kept(t, parent, a) <==>
      forall k :: 0 <= k <= |a| ==> HasAddress(t, a[..k]) && Linked(At(t, a[..k]).node, NodeAbove(t, parent, a[..k]))
    decreases a
  {
    if a == [] {
      assert a[..0] == [];
    } else {
      var c, b := t.children[a[0]], a[1..];
      KeptIff(c, Some(t.node), b);
      forall k | 0 < k <= |a|
        ensures HasAddress(t, a[..k]) == HasAddress(c, b[..k - 1])
        ensures HasAddress(t, a[..k]) ==>
          At(t, a[..k]) == At(c, b[..k - 1]) && NodeAbove(t, parent, a[..k]) == NodeAbove(c, Some(t.node), b[..k - 1])
      {
        assert a[..k][1..] == b[..k - 1];
      }
      assert a[..0] == [];
      if forall k :: 0 <= k <= |a| ==>
        HasAddress(t, a[..k]) && Linked(At(t, a[..k]).node, NodeAbove(t, parent, a[..k])) {
        forall k | 0 <= k <= |b|
          ensures HasAddress(c, b[..k]) && Linked(At(c, b[..k]).node, NodeAbove(c, Some(t.node), b[..k]))
        {
          assert HasAddress(t, a[..k + 1]);
        }
      }
    }
  }

  // ---------------------------------------------------------------- from the services

  /** A call by which the child service is reached and that becomes an external of its parent. */
  ghost predicate Called(parent: Service, s: Service) {
    LinkOf(parent.exitSpans, s).Some? &&
    var id := parent.exitSpans[LinkOf(parent.exitSpans, s).value].spanId;
    id != "" && exists x :: x in parent.entrySpans + parent.exitSpans && IsExit(x.kind) && x.spanId == id
  }

  ghost predicate Consumes(s: Service) {
    exists x :: x in s.entrySpans + s.exitSpans && x.kind.Consumer?
  }

  /**
   When a child of a service is the reason for pruning: it consumes no message,
   and the first exit span that calls it has no id or no external of the parent
   carries that id.
   */
  lemma LinkedIff(parent: Service, s: Service, above: Option<Service>, topUrl: bool)
    ensures Linked(NodeOf(Some(parent), s, topUrl), Some(NodeOf(above, parent, topUrl))) <==>
      Consumes(s) || Called(parent, s)
  {
    ConsumesExternal(s, topUrl);
    var n, p := NodeOf(Some(parent), s, topUrl), NodeOf(above, parent, topUrl);
    var spans := parent.entrySpans + parent.exitSpans;
    if ParentSide(n, Some(p)).Some? {
      var e := ParentSide(n, Some(p)).value;
      BuildAllHas(spans, topUrl, e);
      var i :| 0 <= i < |spans| && Build(spans[i], topUrl) == Some(e);
      BuildExact(spans[i], topUrl);
      assert spans[i] in spans;
    }
    if Called(parent, s) {
      var id := parent.exitSpans[LinkOf(parent.exitSpans, s).value].spanId;
      var x :| x in spans && IsExit(x.kind) && x.spanId == id;
      ExitHasExternal(spans, topUrl, x);
    }
  }

  lemma ExitHasExternal(spans: seq<Span>, topUrl: bool, x: Span)
    requires x in spans && IsExit(x.kind)
    ensures exists e :: e in BuildAll(spans, topUrl) && e.spanId == x.spanId && e.kind == x.kind
  {
    BuildExact(x, topUrl);
    var e := Build(x, topUrl).value;
    var i :| 0 <= i < |spans| && spans[i] == x;
    assert Build(spans[i], topUrl) == Some(e);
    BuildAllHas(spans, topUrl, e);
  }

  lemma ConsumesExternal(s: Service, topUrl: bool)
    ensures ConsumerSide(BuildAll(s.entrySpans + s.exitSpans, topUrl)).Some? <==> Consumes(s)
  {
    var spans := s.entrySpans + s.exitSpans;
    var es := BuildAll(spans, topUrl);
    if Consumes(s) {
      var x :| x in spans && x.kind.Consumer?;
      ExitHasExternal(spans, topUrl, x);
    }
    if ConsumerSide(es).Some? {
      var e :| e in es && e.kind.Consumer?;
      BuildAllHas(spans, topUrl, e);
      var i :| 0 <= i < |spans| && Build(spans[i], topUrl) == Some(e);
      BuildExact(spans[i], topUrl);
      assert spans[i] in spans;
    }
  }

  /** A child called by a client, producer or consumer span with an id is never the reason for pruning. */
  lemma CalledIsLinked(parent: Service, s: Service, above: Option<Service>, topUrl: bool)
    requires LinkOf(parent.exitSpans, s).Some?
    requires var x := parent.exitSpans[LinkOf(parent.exitSpans, s).value]; IsExit(x.kind) && x.spanId != ""
    ensures Linked(NodeOf(Some(parent), s, topUrl), Some(NodeOf(above, parent, topUrl)))
  {
    var x := parent.exitSpans[LinkOf(parent.exitSpans, s).value];
    assert x in parent.entrySpans + parent.exitSpans;
    LinkedIff(parent, s, above, topUrl);
  }

  /** With span ids used once per service, the side that is found is the very call. */
  lemma SideIsTheCall(parent: Service, s: Service, above: Option<Service>, topUrl: bool)
    requires LinkOf(parent.exitSpans, s).Some?
    requires var x := parent.exitSpans[LinkOf(parent.exitSpans, s).value]; IsExit(x.kind) && x.spanId != ""
    requires IdsDistinct(parent.entrySpans + parent.exitSpans)
    ensures ParentSide(NodeOf(Some(parent), s, topUrl), Some(NodeOf(above, parent, topUrl))) ==
      Build(parent.exitSpans[LinkOf(parent.exitSpans, s).value], topUrl)
  {
    var k := LinkOf(parent.exitSpans, s).value;
    assert (parent.entrySpans + parent.exitSpans)[|parent.entrySpans| + k] == parent.exitSpans[k];
    FindsOnly(parent.entrySpans + parent.exitSpans, topUrl, |parent.entrySpans| + k);
  }

  ghost predicate IdsDistinct(spans: seq<Span>) {
    forall i, j :: 0 <= i < j < |spans| ==> spans[i].spanId != spans[j].spanId
  }

  lemma FindsOnly(spans: seq<Span>, topUrl: bool, k: nat)
    requires k < |spans| && IsExit(spans[k].kind) && IdsDistinct(spans)
    ensures FindSpan(BuildAll(spans, topUrl), spans[k].spanId) == Build(spans[k], topUrl)
  {
    ExitHasExternal(spans, topUrl, spans[k]);
    var e := FindSpan(BuildAll(spans, topUrl), spans[k].spanId).value;
    BuildAllHas(spans, topUrl, e);
    var i :| 0 <= i < |spans| && Build(spans[i], topUrl) == Some(e);
    BuildExact(spans[i], topUrl);
    assert i == k;
  }

  /** Every service on the way down to the address consumes a message or was called by the one above it. */
  ghost predicate Reached(parent: Option<Service>, t: Tree<Service>, a: seq<nat>)
    requires HasAddress(t, a)
    decreases a
  {
    && (parent.None? || Consumes(t.node) || Called(parent.value, t.node))
    && (a == [] || Reached(Some(t.node), t.children[a[0]], a[1..]))
  }

  lemma {:induction false} KeptIffReached(parent: Option<Service>, above: Option<Service>, t: Tree<Service>,
                                          topUrl: bool, a: seq<nat>)
    requires HasAddress(t, a)
    ensures HasAddress(Topo(parent, t, topUrl), a)
    ensures var p := if parent.None? then None else Some(NodeOf(above, parent.value, topUrl));
      Kept(Topo(parent, t, topUrl), p, a) <==> Reached(parent, t, a)
    decreases a
  {
    Isomorphic(parent, t, topUrl, a);
    if parent.Some? {
      LinkedIff(parent.value, t.node, above, topUrl);
    }
    if a != [] {
      KeptIffReached(Some(t.node), parent, t.children[a[0]], topUrl, a[1..]);
    }
  }

  /** From the services of a trace to the rows: a service has its server row exactly when it is reached. */
  lemma ServerRowIff(t: Tree<Service>, topUrl: bool, a: seq<nat>)
    requires HasAddress(t, a)
    ensures ServerOf(a) in Origins(Topo(None, t, topUrl), None) <==> Reached(None, t, a)
  {
    RowsExact(Topo(None, t, topUrl));
    KeptIffReached(None, None, t, topUrl, a);
  }

  // ---------------------------------------------------------------- what the rows say

  /** At which of the externals the calls without a known other side stand. */
  ghost predicate UnansweredAt(externals: seq<External>, clients: seq<External>, at: seq<nat>) {
    && Rising(at) && |at| == |clients|
    && (forall i: nat :: i in at <==>
         i < |externals| && !externals[i].kind.Consumer? && externals[i].nextSpanId == "")
    && (forall c :: 0 <= c < |at| ==> at[c] < |externals| && clients[c] == externals[at[c]])
  }

  lemma UnansweredNext(externals: seq<External>, clients: seq<External>, at: seq<nat>)
    requires externals != [] && UnansweredAt(externals[..|externals| - 1], clients, at)
    ensures var n := |externals| - 1;
      if !externals[n].kind.Consumer? && externals[n].nextSpanId == ""
      then UnansweredAt(externals, clients + [externals[n]], at + [n])
      else UnansweredAt(externals, clients, at)
  {
    var n := |externals| - 1;
    forall i: nat
      ensures i in at <==> i < n && !externals[i].kind.Consumer? && externals[i].nextSpanId == ""
    {
      assert i < n ==> externals[..n][i] == externals[i];
    }
  }

  /** The calls that get a client row are the externals of no consumer kind and without a next span, in their order. */
  lemma {:induction false} ClientSidesExact(externals: seq<External>) returns (at: seq<nat>)
    ensures UnansweredAt(externals, ClientSides(externals), at)
  {
    at := [];
    if externals != [] {
      var n := |externals| - 1;
      at := ClientSidesExact(externals[..n]);
      UnansweredNext(externals, ClientSides(externals[..n]), at);
      if !externals[n].kind.Consumer? && externals[n].nextSpanId == "" {
        at := at + [n];
      }
    }
  }

  /** The side that a node states itself is that of its last consumer external. */
  lemma {:induction false} ConsumerSideIsLast(externals: seq<External>, k: nat)
    requires k < |externals| && externals[k].kind.Consumer?
    requires forall i :: k < i < |externals| ==> !externals[i].kind.Consumer?
    ensures ConsumerSide(externals) == Some(externals[k])
  {
    if k < |externals| - 1 {
      ConsumerSideIsLast(externals[..|externals| - 1], k);
    }
  }

  /**
   The client rows of a node: they are there if and only if it is kept, one for
   each of its calls that no known service answers, in order, and say who called
   whom by what.
   */
  lemma ClientRowsExact(t: Tree<TopoNode>, a: seq<nat>, base: string, top: seq<nat>) returns (at: seq<nat>)
    requires HasAddress(t, a)
    ensures UnansweredAt(At(t, a).node.externals, Clients(t, a), at)
    ensures forall c: nat :: ClientOf(a, c) in Origins(t, None) <==> Kept(t, None, a) && c < |at|
    ensures var n := At(t, a).node;
      forall c: nat :: Kept(t, None, a) && c < |at| ==>
        at[c] < |n.externals| && SaysClient(RowOf(t, None, ClientOf(a, c), base, top), n, n.externals[at[c]])
  {
    RowsExact(t);
    at := ClientSidesExact(At(t, a).node.externals);
  }

  /** A row of the call e of the node n. */
  ghost predicate SaysClient(row: Row, n: TopoNode, e: External) {
    && row.parentService == n.info.serviceName && row.parentUrl == n.info.url && !row.parentTraced
    && row.clientGroup == e.group && row.clientType == e.typ && row.clientPeer == e.peer && row.clientKey == e.name
    && row.service == "" && row.url == "" && !row.isTraced && !row.isAsync
  }

  lemma ClientSidesSnoc(externals: seq<External>, e: External)
    ensures ClientSides(externals + [e]) ==
      ClientSides(externals) + (if !e.kind.Consumer? && e.nextSpanId == "" then [e] else [])
  {
    assert (externals + [e])[..|externals|] == externals;
  }

  /** What the last span of a list adds to the externals. */
  lemma LastBuilt(spans: seq<Span>, topUrl: bool)
    requires spans != []
    ensures var n := |spans| - 1;
      && (IsExit(spans[n].kind) ==>
           Build(spans[n], topUrl).Some?
           && BuildAll(spans, topUrl) == BuildAll(spans[..n], topUrl) + [Build(spans[n], topUrl).value])
      && (!IsExit(spans[n].kind) ==> BuildAll(spans, topUrl) == BuildAll(spans[..n], topUrl))
  {
    BuildExact(spans[|spans| - 1], topUrl);
  }

  /** At which of the spans the calls in clients were made. */
  ghost predicate CallsAt(spans: seq<Span>, topUrl: bool, clients: seq<External>, at: seq<nat>) {
    && Rising(at) && |at| == |clients|
    && (forall i: nat :: i in at <==>
         i < |spans| && (spans[i].kind.Client? || spans[i].kind.Producer?) && spans[i].nextSpanId == "")
    && (forall c :: 0 <= c < |at| ==> at[c] < |spans| && Build(spans[at[c]], topUrl) == Some(clients[c]))
  }

  lemma CallsAtNext(spans: seq<Span>, topUrl: bool, clients: seq<External>, at: seq<nat>)
    requires spans != [] && CallsAt(spans[..|spans| - 1], topUrl, clients, at)
    ensures var n := |spans| - 1;
      if (spans[n].kind.Client? || spans[n].kind.Producer?) && spans[n].nextSpanId == ""
      then Build(spans[n], topUrl).Some? && CallsAt(spans, topUrl, clients + [Build(spans[n], topUrl).value], at + [n])
      else CallsAt(spans, topUrl, clients, at)
  {
    var n := |spans| - 1;
    BuildExact(spans[n], topUrl);
    forall i: nat
      ensures i in at <==> i < n && (spans[i].kind.Client? || spans[i].kind.Producer?) && spans[i].nextSpanId == ""
    {
      assert i < n ==> spans[..n][i] == spans[i];
    }
  }

  /** The same from the spans of a service. */
  lemma {:induction false} ClientSpans(spans: seq<Span>, topUrl: bool) returns (at: seq<nat>)
    ensures CallsAt(spans, topUrl, ClientSides(BuildAll(spans, topUrl)), at)
  {
    at := [];
    if spans != [] {
      var n := |spans| - 1;
      at := ClientSpans(spans[..n], topUrl);
      var before := BuildAll(spans[..n], topUrl);
      CallsAtNext(spans, topUrl, ClientSides(before), at);
      LastBuilt(spans, topUrl);
      BuildExact(spans[n], topUrl);
      if IsExit(spans[n].kind) {
        ClientSidesSnoc(before, Build(spans[n], topUrl).value);
        if !spans[n].kind.Consumer? && spans[n].nextSpanId == "" {
          at := at + [n];
        }
      }
    }
  }

  /**
   From the services of a trace to the client rows: a service has one if and only
   if it is reached, for each of its client and producer spans without a next
   span, in order.
   */
  lemma ClientRowIff(t: Tree<Service>, topUrl: bool, a: seq<nat>) returns (at: seq<nat>)
    requires HasAddress(t, a)
    ensures var s, topo := At(t, a).node, Topo(None, t, topUrl);
      && HasAddress(topo, a)
      && CallsAt(s.entrySpans + s.exitSpans, topUrl, Clients(topo, a), at)
      && (forall c: nat :: ClientOf(a, c) in Origins(topo, None) <==> Reached(None, t, a) && c < |at|)
  {
    var s, topo := At(t, a).node, Topo(None, t, topUrl);
    Isomorphic(None, t, topUrl, a);
    RowsExact(topo);
    KeptIffReached(None, None, t, topUrl, a);
    at := ClientSpans(s.entrySpans + s.exitSpans, topUrl);
  }

  // ---------------------------------------------------------------- the sides of server rows

  /** The first span of a list that becomes an external under the id, and the last consumer. */
  predicate FirstWithId(spans: seq<Span>, id: string, k: nat) {
    && k < |spans| && IsExit(spans[k].kind) && spans[k].spanId == id
    && forall i :: 0 <= i < k ==> !(IsExit(spans[i].kind) && spans[i].spanId == id)
  }

  predicate LastConsumer(spans: seq<Span>, k: nat) {
    k < |spans| && spans[k].kind.Consumer? && forall i :: k < i < |spans| ==> !spans[i].kind.Consumer?
  }

  lemma {:induction false} FindSpanSnoc(externals: seq<External>, e: External, id: string)
    ensures FindSpan(externals + [e], id) ==
      if FindSpan(externals, id).Some? then FindSpan(externals, id) else if e.spanId == id then Some(e) else None
  {
    if externals != [] {
      assert (externals + [e])[1..] == externals[1..] + [e];
      FindSpanSnoc(externals[1..], e, id);
    }
  }

  lemma FindSpanBuilt(spans: seq<Span>, topUrl: bool, id: string)
    requires spans != []
    ensures var n := |spans| - 1;
      var before := FindSpan(BuildAll(spans[..n], topUrl), id);
      FindSpan(BuildAll(spans, topUrl), id) ==
      if before.Some? then before
      else if IsExit(spans[n].kind) && spans[n].spanId == id then Build(spans[n], topUrl) else None
  {
    var n := |spans| - 1;
    LastBuilt(spans, topUrl);
    BuildExact(spans[n], topUrl);
    if IsExit(spans[n].kind) {
      FindSpanSnoc(BuildAll(spans[..n], topUrl), Build(spans[n], topUrl).value, id);
    }
  }

  lemma {:induction false} FindsFirst(spans: seq<Span>, topUrl: bool, id: string, k: nat)
    requires FirstWithId(spans, id, k)
    ensures FindSpan(BuildAll(spans, topUrl), id) == Build(spans[k], topUrl)
  {
    FindSpanBuilt(spans, topUrl, id);
    BuildExact(spans[k], topUrl);
    if k < |spans| - 1 {
      FindsFirst(spans[..|spans| - 1], topUrl, id, k);
    } else {
      FindsNone(spans[..k], topUrl, id);
    }
  }

  lemma FindsNone(spans: seq<Span>, topUrl: bool, id: string)
    requires forall i :: 0 <= i < |spans| ==> !(IsExit(spans[i].kind) && spans[i].spanId == id)
    ensures FindSpan(BuildAll(spans, topUrl), id).None?
  {
    if FindSpan(BuildAll(spans, topUrl), id).Some? {
      var e := FindSpan(BuildAll(spans, topUrl), id).value;
      BuildAllHas(spans, topUrl, e);
      var i :| 0 <= i < |spans| && Build(spans[i], topUrl) == Some(e);
      BuildExact(spans[i], topUrl);
      assert false;
    }
  }

  lemma ConsumerSideSnoc(externals: seq<External>, e: External)
    ensures ConsumerSide(externals + [e]) == if e.kind.Consumer? then Some(e) else ConsumerSide(externals)
  {
    assert (externals + [e])[..|externals|] == externals;
  }

  lemma ConsumerSideBuilt(spans: seq<Span>, topUrl: bool)
    requires spans != []
    ensures var n := |spans| - 1;
      ConsumerSide(BuildAll(spans, topUrl)) ==
      if spans[n].kind.Consumer? then Build(spans[n], topUrl) else ConsumerSide(BuildAll(spans[..n], topUrl))
  {
    var n := |spans| - 1;
    LastBuilt(spans, topUrl);
    BuildExact(spans[n], topUrl);
    if IsExit(spans[n].kind) {
      ConsumerSideSnoc(BuildAll(spans[..n], topUrl), Build(spans[n], topUrl).value);
    }
  }

  lemma {:induction false} ConsumerSpan(spans: seq<Span>, topUrl: bool, k: nat)
    requires LastConsumer(spans, k)
    ensures ConsumerSide(BuildAll(spans, topUrl)) == Build(spans[k], topUrl)
  {
    ConsumerSideBuilt(spans, topUrl);
    if k < |spans| - 1 {
      ConsumerSpan(spans[..|spans| - 1], topUrl, k);
    }
  }

  /**
   The side of a service: its last consumer span, or without one the first span
   of the service above that has the id of the first exit span that calls it.
   */
  lemma ServiceSideIs(parent: Service, s: Service, above: Option<Service>, topUrl: bool, k: nat)
    ensures var side := ServiceSide(NodeOf(Some(parent), s, topUrl), Some(NodeOf(above, parent, topUrl)));
      && (LastConsumer(s.entrySpans + s.exitSpans, k) ==> side == Build((s.entrySpans + s.exitSpans)[k], topUrl))
      && (!Consumes(s) && LinkOf(parent.exitSpans, s).Some? ==>
           var id := parent.exitSpans[LinkOf(parent.exitSpans, s).value].spanId;
           id != "" && FirstWithId(parent.entrySpans + parent.exitSpans, id, k) ==>
           side == Build((parent.entrySpans + parent.exitSpans)[k], topUrl))
  {
    var spans := s.entrySpans + s.exitSpans;
    ConsumesExternal(s, topUrl);
    if LastConsumer(spans, k) {
      ConsumerSpan(spans, topUrl, k);
      BuildExact(spans[k], topUrl);
    }
    if !Consumes(s) && LinkOf(parent.exitSpans, s).Some? {
      var id := parent.exitSpans[LinkOf(parent.exitSpans, s).value].spanId;
      if id != "" && FirstWithId(parent.entrySpans + parent.exitSpans, id, k) {
        FindsFirst(parent.entrySpans + parent.exitSpans, topUrl, id, k);
      }
    }
  }

  /** What a server row says of a service: the names of its sampled trace, else of its entry span. */
  ghost predicate SaysService(name: string, url: string, traced: bool, s: Service) {
    && traced == s.sampled.Some?
    && (traced ==> name == s.sampled.value.serviceName && url == s.sampled.value.url)
    && (!traced ==> name == s.entry.serviceName && url == s.entry.url)
  }

  /**
   The server row of a reached service: the service, the one above it, and the
   call between them; asynchronous exactly for a message.
   */
  lemma ServerRowSays(t: Tree<Service>, topUrl: bool, a: seq<nat>, base: string, top: seq<nat>)
    requires HasAddress(t, a) && Reached(None, t, a)
    ensures var topo := Topo(None, t, topUrl);
      && Genuine(topo, None, ServerOf(a))
      && var row, above := RowOf(topo, None, ServerOf(a), base, top), ServiceAbove(None, t, a);
         var side := ServiceSide(At(topo, a).node, NodeAbove(topo, None, a));
         && SaysService(row.service, row.url, row.isTraced, At(t, a).node)
         && (above.Some? ==> SaysService(row.parentService, row.parentUrl, row.parentTraced, above.value))
         && (above.None? ==> row.parentService == "" && row.parentUrl == "" && !row.parentTraced)
         && (side.Some? ==>
              && row.clientGroup == side.value.group && row.clientType == side.value.typ
              && row.clientPeer == side.value.peer && row.clientKey == side.value.name)
         && (side.None? ==> row.clientGroup == row.clientType == row.clientPeer == row.clientKey == "")
         && (row.isAsync <==> row.clientGroup == "mq")
  {
    Isomorphic(None, t, topUrl, a);
    KeptIffReached(None, None, t, topUrl, a);
    AboveIsNode(None, None, t, topUrl, a);
  }

  /** The node above an address is made from the service above it. */
  lemma {:induction false} AboveIsNode(parent: Option<Service>, above: Option<Service>, t: Tree<Service>,
                                       topUrl: bool, a: seq<nat>)
    requires HasAddress(t, a) && HasAddress(Topo(parent, t, topUrl), a)
    ensures var p := if parent.None? then None else Some(NodeOf(above, parent.value, topUrl));
      var n, s := NodeAbove(Topo(parent, t, topUrl), p, a), ServiceAbove(parent, t, a);
      && (n.None? <==> s.None?)
      && (n.Some? ==> n.value.info == InfoOf(s.value))
    decreases a
  {
    if a != [] {
      Isomorphic(Some(t.node), t.children[a[0]], topUrl, a[1..]);
      AboveIsNode(Some(t.node), parent, t.children[a[0]], topUrl, a[1..]);
    }
  }
}
