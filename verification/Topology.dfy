/**
 The topology of the services of a trace (pkg/analyzer/report/topology.go):
 linked nodes with parent pointers, built from the service tree. What the
 apo-module accessors answer for a service is part of the service.
 */
module Topology {
  import opened Basics
  import opened Trees
  import opened ExternalFactory

  datatype Info = Info(
    startTime: nat,
    serviceName: string,
    url: string,
    spanId: string,
    nodeName: string,
    nodeIp: string,
    pid: int,
    containerId: string,
    isTraced: bool)

  /**
   One OtelServiceNode: sampled is the matching sampled trace if there is one,
   entry the entry span, matched the ids that MatchEntrySpan accepts.
   */
  datatype Service = Service(
    sampled: Option<Info>,
    entry: Info,
    isTopNode: bool,
    entrySpans: seq<Span>,
    exitSpans: seq<Span>,
    matched: set<string>)

  /** The fields of a TopologyNode besides its links. */
  datatype TopoNode = TopoNode(info: Info, sideSpanId: string, topNode: bool, externals: seq<External>)

  function InfoOf(s: Service): Info {
    if s.sampled.Some? then s.sampled.value.(isTraced := true)
    else Info(s.entry.startTime, s.entry.serviceName, s.entry.url, s.entry.spanId, "unknown", "unknown", 0, "", false)
  }

  /** A node is described by its sampled trace, and is then traced; else by its entry span, without a place. */
  lemma InfoSays(s: Service)
    ensures var info := InfoOf(s);
      && info.isTraced == s.sampled.Some?
      && (s.sampled.Some? ==>
           var t := s.sampled.value;
           && info.startTime == t.startTime && info.serviceName == t.serviceName && info.url == t.url
           && info.spanId == t.spanId && info.nodeName == t.nodeName && info.nodeIp == t.nodeIp
           && info.pid == t.pid && info.containerId == t.containerId)
      && (s.sampled.None? ==>
           && info.startTime == s.entry.startTime && info.serviceName == s.entry.serviceName
           && info.url == s.entry.url && info.spanId == s.entry.spanId
           && info.nodeName == info.nodeIp == "unknown" && info.pid == 0 && info.containerId == "")
  {
  }

  /** The first exit span that calls the service. */
  function LinkOf(exitSpans: seq<Span>, s: Service): (link: Option<nat>)
    ensures link.Some? ==> link.value < |exitSpans| && exitSpans[link.value].nextSpanId in s.matched
    ensures forall i :: 0 <= i < (if link.Some? then link.value else |exitSpans|) ==>
      exitSpans[i].nextSpanId !in s.matched
  {
    if exitSpans == [] then None
    else if exitSpans[0].nextSpanId in s.matched then Some(0)
    else
      var rest := LinkOf(exitSpans[1..], s);
      if rest.None? then None else Some(rest.value + 1)
  }

  function SideSpanId(parent: Option<Service>, s: Service): string {
    if parent.None? || LinkOf(parent.value.exitSpans, s).None? then ""
    else parent.value.exitSpans[LinkOf(parent.value.exitSpans, s).value].spanId
  }

  function NodeOf(parent: Option<Service>, s: Service, topUrl: bool): TopoNode {
    TopoNode(InfoOf(s), SideSpanId(parent, s), s.isTopNode, BuildAll(s.entrySpans + s.exitSpans, topUrl))
  }

  /** The topology of a service tree. */
  function Topo(parent: Option<Service>, t: Tree<Service>, topUrl: bool): Tree<TopoNode>
    decreases t
  {
    Tree(NodeOf(parent, t.node, topUrl),
         seq(|t.children|, i requires 0 <= i < |t.children| => Topo(Some(t.node), t.children[i], topUrl)))
  }

  /** The service that the parent of an address provides, if the address has one. */
  ghost function ServiceAbove(parent: Option<Service>, t: Tree<Service>, a: seq<nat>): Option<Service>
    requires HasAddress(t, a)
    decreases a
  {
    if a == [] then parent else ServiceAbove(Some(t.node), t.children[a[0]], a[1..])
  }

  /** Same shape, same child order, and every node is made from its service and its parent's. */
  lemma {:induction false} Isomorphic(parent: Option<Service>, t: Tree<Service>, topUrl: bool, a: seq<nat>)
    ensures HasAddress(Topo(parent, t, topUrl), a) <==> HasAddress(t, a)
    ensures HasAddress(t, a) ==>
      At(Topo(parent, t, topUrl), a) == Topo(ServiceAbove(parent, t, a), At(t, a), topUrl)
    decreases a
  {
    if a != [] && a[0] < |t.children| {
      Isomorphic(Some(t.node), t.children[a[0]], topUrl, a[1..]);
    }
  }

  /** The service above is the one at the address without its last index. */
  lemma {:induction false} ServiceAboveIsParent(parent: Option<Service>, t: Tree<Service>, a: seq<nat>)
    requires a != [] && HasAddress(t, a)
    ensures HasAddress(t, a[..|a| - 1]) && ServiceAbove(parent, t, a) == Some(At(t, a[..|a| - 1]).node)
    decreases a
  {
    if |a| > 1 {
      ServiceAboveIsParent(Some(t.node), t.children[a[0]], a[1..]);
      assert a[..|a| - 1][1..] == a[1..][..|a| - 2];
    }
  }

  // ---------------------------------------------------------------- the linked nodes

  class TopologyNode {
    const value: TopoNode
    var children: seq<TopologyNode>
    var parent: TopologyNode?
    /** The nodes of the subtree. */
    ghost var repr: set<TopologyNode>

    constructor (value: TopoNode, parent: TopologyNode?)
      ensures this.value == value && this.parent == parent && children == [] && repr == {this}
    {
      this.value := value;
      children, this.parent := [], parent;
      repr := {this};
    }

    method AddChild(child: TopologyNode)
      requires child != this
      modifies this`children, child`parent
      ensures children == old(children) + [child] && child.parent == this
    {
      children := children + [child];
      child.parent := this;
    }

    method GetParentSideExternal() returns (e: Option<External>)
      ensures e == ParentSide(value, if parent == null then None else Some(parent.value))
    {
      if parent == null || value.sideSpanId == "" {
        return None;
      }
      var externals := parent.value.externals;
      assert externals[0..] == externals;
      for i := 0 to |externals|
        invariant FindSpan(externals, value.sideSpanId) == FindSpan(externals[i..], value.sideSpanId)
      {
        if externals[i].spanId == value.sideSpanId {
          return Some(externals[i]);
        }
      }
      return None;
    }
  }

  function FindSpan(externals: seq<External>, spanId: string): (e: Option<External>)
    ensures e.None? <==> forall x :: x in externals ==> x.spanId != spanId
    ensures e.Some? ==> e.value in externals && e.value.spanId == spanId
  {
    if externals == [] then None
    else if externals[0].spanId == spanId then Some(externals[0])
    else
      assert forall x :: x in externals <==> x == externals[0] || x in externals[1..];
      FindSpan(externals[1..], spanId)
  }

  /** The external of the parent through which the node was called. */
  function ParentSide(n: TopoNode, parent: Option<TopoNode>): Option<External> {
    if parent.None? || n.sideSpanId == "" then None else FindSpan(parent.value.externals, n.sideSpanId)
  }

  /**
   The linked nodes from n down are the tree t: values and child order agree,
   parent pointers are the inverse of the children, and no node is shared.
   */
  ghost predicate Represents(n: TopologyNode, parent: TopologyNode?, t: Tree<TopoNode>)
    reads n, n.repr
    decreases t
  {
    && n in n.repr && n.parent == parent && n.value == t.node
    && |n.children| == |t.children|
    && (forall i :: 0 <= i < |n.children| ==>
         n.children[i] in n.repr && n.children[i].repr <= n.repr && n !in n.children[i].repr)
    && (forall i, j :: 0 <= i < j < |n.children| ==> n.children[i].repr !! n.children[j].repr)
    && (forall i :: 0 <= i < |n.children| ==> Represents(n.children[i], n, t.children[i]))
  }

  /** The first children of a node, complete and apart from each other. */
  ghost predicate Siblings(cs: seq<TopologyNode>, n: TopologyNode, t: Tree<TopoNode>, nodes: set<TopologyNode>)
    reads nodes
  {
    && n in nodes && |cs| <= |t.children|
    && (forall i :: 0 <= i < |cs| ==> cs[i] in nodes && cs[i].repr <= nodes && n !in cs[i].repr)
    && (forall i, j :: 0 <= i < j < |cs| ==> cs[i].repr !! cs[j].repr)
    && (forall i :: 0 <= i < |cs| ==> Represents(cs[i], n, t.children[i]))
  }

  /** A node of which only the first k children are built. */
  ghost predicate Building(n: TopologyNode, parent: TopologyNode?, t: Tree<TopoNode>, k: nat)
    reads n, n.repr
  {
    n.parent == parent && n.value == t.node && |n.children| == k && Siblings(n.children, n, t, n.repr)
  }

  method GetSideSpanId(parentService: Option<Service>, service: Service) returns (id: string)
    ensures id == SideSpanId(parentService, service)
  {
    if parentService.None? {
      return "";
    }
    var exitSpans := parentService.value.exitSpans;
    for i := 0 to |exitSpans|
      invariant forall j :: 0 <= j < i ==> exitSpans[j].nextSpanId !in service.matched
    {
      if exitSpans[i].nextSpanId in service.matched {
        return exitSpans[i].spanId;
      }
    }
    return "";
  }

  method NewServerTopologyNode(parent: TopologyNode?, parentService: Option<Service>, service: Service, topUrl: bool)
    returns (node: TopologyNode)
    modifies if parent == null then {} else {parent}
    ensures fresh(node) && node.repr == {node} && node.children == [] && node.parent == parent
    ensures node.value == NodeOf(parentService, service, topUrl)
    ensures parent != null ==> parent.children == old(parent.children) + [node]
    ensures parent != null ==> parent.parent == old(parent.parent) && parent.repr == old(parent.repr)
  {
    var info;
    if service.sampled.Some? {
      var s := service.sampled.value;
      info := Info(s.startTime, s.serviceName, s.url, s.spanId, s.nodeName, s.nodeIp, s.pid, s.containerId, true);
    } else {
      var s := service.entry;
      info := Info(s.startTime, s.serviceName, s.url, s.spanId, "unknown", "unknown", 0, "", false);
    }
    var sideSpanId := GetSideSpanId(parentService, service);
    var externals := BuildExternals(service.entrySpans, service.exitSpans, topUrl);
    node := new TopologyNode(TopoNode(info, sideSpanId, service.isTopNode, externals), parent);
    if parent != null {
      parent.AddChild(node);
    }
  }

  /** The node of a service and, below it, those of its children. */
  method CollectChildTopologyNode(parent: TopologyNode?, parentService: Option<Service>, t: Tree<Service>, topUrl: bool)
    returns (node: TopologyNode)
    modifies if parent == null then {} else {parent}
    ensures fresh(node.repr) && Represents(node, parent, Topo(parentService, t, topUrl))
    ensures parent != null ==> parent.children == old(parent.children) + [node]
    ensures parent != null ==> parent.parent == old(parent.parent) && parent.repr == old(parent.repr)
    decreases t, 1
  {
    node := NewServerTopologyNode(parent, parentService, t.node, topUrl);
    ghost var tree := Topo(parentService, t, topUrl);
    ghost var siblings := if parent == null then [] else parent.children;
    for i := 0 to |t.children|
      invariant fresh(node.repr) && Building(node, parent, tree, i)
      invariant parent != null ==> parent.children == siblings
      invariant parent != null ==> parent.parent == old(parent.parent) && parent.repr == old(parent.repr)
    {
      CollectChild(node, parent, parentService, t, topUrl, i);
    }
  }

  /** One turn of the loop over the children. */
  method CollectChild(node: TopologyNode, ghost parent: TopologyNode?, ghost parentService: Option<Service>,
                      t: Tree<Service>, topUrl: bool, i: nat)
    requires i < |t.children| && Building(node, parent, Topo(parentService, t, topUrl), i)
    modifies node
    ensures Building(node, parent, Topo(parentService, t, topUrl), i + 1)
    ensures fresh(node.repr - old(node.repr))
    decreases t, 0
  {
    ghost var tree := Topo(parentService, t, topUrl);
    ghost var older := node.children;
    ghost var nodes := node.repr;
    assert Siblings(older, node, tree, nodes);
    var child := CollectChildTopologyNode(node, Some(t.node), t.children[i], topUrl);
    forall j | 0 <= j < i
      ensures Represents(older[j], node, tree.children[j]) && older[j].repr <= nodes && node !in older[j].repr
    {
      assert older[j] in nodes && older[j] != node;
    }
    Adopt(node, tree, older, child);
  }

  ghost method Adopt(n: TopologyNode, t: Tree<TopoNode>, older: seq<TopologyNode>, child: TopologyNode)
    requires |older| < |t.children| && n.value == t.node && n.children == older + [child]
    requires Siblings(older, n, t, n.repr)
    requires Represents(child, n, t.children[|older|]) && child.repr !! n.repr
    modifies n`repr
    ensures n.repr == old(n.repr) + child.repr
    ensures Building(n, n.parent, t, |older| + 1)
  {
    n.repr := n.repr + child.repr;
    assert forall i :: 0 <= i < |older| ==> Represents(older[i], n, t.children[i]);
  }

  /** One root per service, without a parent. */
  method NewTopology(services: seq<Tree<Service>>, topUrl: bool) returns (nodes: seq<TopologyNode>)
    ensures |nodes| == |services|
    ensures forall i :: 0 <= i < |nodes| ==> Represents(nodes[i], null, Topo(None, services[i], topUrl))
  {
    nodes := [];
    for i := 0 to |services|
      invariant |nodes| == i
      invariant forall j :: 0 <= j < i ==> Represents(nodes[j], null, Topo(None, services[j], topUrl))
    {
      var node := CollectChildTopologyNode(null, None, services[i], topUrl);
      nodes := nodes + [node];
    }
  }
}
