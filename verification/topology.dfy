/**
 * Topology state of one storage cluster, as the beat holds it: for each
 * configured virtual datacenter (VDC) an entry with the VDC's identity and
 * the member nodes known so far, keyed by node IP.
 *
 * Everything here is a value. The functions state what one refresh does to
 * that state given what the management API answered; the classes in module
 * Beater perform the refresh step by step and are proved to agree with them.
 */
module Topology {

  datatype Option<+T> = None | Some(value: T)

  /** One member node of a VDC. */
  datatype Node = Node(id: string, ip: string, name: string, version: string)
  {
    /** Node.Update, taken to be a plain overwrite of all four fields. */
    function Update(id: string, ip: string, name: string, version: string): Node
    {
      Node(id, ip, name, version)
    }
  }

  /** One configured VDC: its name, the identity the server reported, and its nodes by IP. */
  datatype VdcEntry = VdcEntry(name: string, id: string, resolvedName: string, nodeInfo: map<string, Node>)
  {
    /** VdcEntry.Update, taken to be a plain overwrite of the three identity fields. */
    function Update(name: string, id: string, resolvedName: string): VdcEntry
    {
      this.(name := name, id := id, resolvedName := resolvedName)
    }
  }

  /** The answer of the local-VDC call. */
  datatype VdcIdentity = VdcIdentity(id: string, name: string)

  /** One entry of the answer of the node-list call. */
  datatype NodeRecord = NodeRecord(nodeId: string, ip: string, nodename: string, version: string)

  /**
   * What the management API answers, during one refresh, for one VDC name:
   * each of the two calls either succeeds with a value or fails (None).
   */
  datatype VdcResponse = VdcResponse(localVdc: Option<VdcIdentity>, nodes: Option<seq<NodeRecord>>)

  /** The answers for every VDC of one cluster during one refresh. */
  type Responses = map<string, VdcResponse>

  /** A VDC name without a recorded answer stands for both calls failing. */
  function ResponseFor(responses: Responses, vname: string): VdcResponse
  {
    if vname in responses then responses[vname] else VdcResponse(None, None)
  }

  /** The node built from a node-list entry when its IP is first seen. */
  function ToNode(n: NodeRecord): Node
  {
    Node(n.nodeId, n.ip, n.nodename, n.version)
  }

  /** The map-key invariant of a VDC's node map: every node is filed under its own IP. */
  predicate KeyedByIP(nodeInfo: map<string, Node>)
  {
    forall ip :: ip in nodeInfo ==> nodeInfo[ip].ip == ip
  }

  // ---------------------------------------------------------------------------
  // Merging one node list into a VDC's node map

  /** One step of the merge: an IP already present is updated, an unseen one added only when addNode holds. */
  function MergeNode(nodeInfo: map<string, Node>, n: NodeRecord, addNode: bool): map<string, Node>
  {
    if n.ip in nodeInfo then
      nodeInfo[n.ip := nodeInfo[n.ip].Update(n.nodeId, n.ip, n.nodename, n.version)]
    else if addNode then
      nodeInfo[n.ip := ToNode(n)]
    else
      nodeInfo
  }

  /** The node list folded into the map, entry by entry, in list order. */
  function MergeNodes(nodeInfo: map<string, Node>, nodes: seq<NodeRecord>, addNode: bool): map<string, Node>
  {
    if nodes == [] then nodeInfo
    else MergeNode(MergeNodes(nodeInfo, nodes[..|nodes| - 1], addNode), nodes[|nodes| - 1], addNode)
  }

  /** The IPs a node list mentions. */
  function IPs(nodes: seq<NodeRecord>): (s: set<string>)
    ensures forall i :: 0 <= i < |nodes| ==> nodes[i].ip in s
    ensures s == set i | 0 <= i < |nodes| :: nodes[i].ip
  {
    if nodes == [] then {}
    else
      var prefix := nodes[..|nodes| - 1];
      assert forall i :: 0 <= i < |prefix| ==> prefix[i] == nodes[i];
      IPs(prefix) + {nodes[|nodes| - 1].ip}
  }

  /** The position of the last entry of the list that carries `ip`. */
  function LastIndex(nodes: seq<NodeRecord>, ip: string): (i: nat)
    requires ip in IPs(nodes)
    ensures i < |nodes| && nodes[i].ip == ip
    ensures forall j :: i < j < |nodes| ==> nodes[j].ip != ip
  {
    if nodes[|nodes| - 1].ip == ip then |nodes| - 1 else LastIndex(nodes[..|nodes| - 1], ip)
  }

  /**
   * What a merge produces: the old keys, plus the listed IPs when nodes may be
   * added; a listed IP holds the node of the last entry carrying it, any
   * other key keeps its old node.
   */
  lemma {:induction false} MergeNodesContents(nodeInfo: map<string, Node>, nodes: seq<NodeRecord>, addNode: bool)
    ensures MergeNodes(nodeInfo, nodes, addNode).Keys == nodeInfo.Keys + (if addNode then IPs(nodes) else {})
    ensures forall ip :: ip in MergeNodes(nodeInfo, nodes, addNode) ==>
              MergeNodes(nodeInfo, nodes, addNode)[ip] ==
                if ip in IPs(nodes) then ToNode(nodes[LastIndex(nodes, ip)]) else nodeInfo[ip]
  {
    if nodes != [] {
      var prefix, last := nodes[..|nodes| - 1], nodes[|nodes| - 1];
      MergeNodesContents(nodeInfo, prefix, addNode);
      var merged := MergeNodes(nodeInfo, nodes, addNode);
      forall ip | ip in merged
        ensures merged[ip] == if ip in IPs(nodes) then ToNode(nodes[LastIndex(nodes, ip)]) else nodeInfo[ip]
      {
        if ip != last.ip && ip in IPs(nodes) {
          assert ip in IPs(prefix);
          assert LastIndex(nodes, ip) == LastIndex(prefix, ip);
        }
      }
    }
  }

  /** A merge keeps the key invariant. */
  lemma {:induction false} MergeNodesKeyedByIP(nodeInfo: map<string, Node>, nodes: seq<NodeRecord>, addNode: bool)
    requires KeyedByIP(nodeInfo)
    ensures KeyedByIP(MergeNodes(nodeInfo, nodes, addNode))
  {
    MergeNodesContents(nodeInfo, nodes, addNode);
  }

  /** Merging the same node list a second time changes nothing. */
  lemma {:induction false} MergeNodesIdempotent(nodeInfo: map<string, Node>, nodes: seq<NodeRecord>, addNode: bool)
    ensures MergeNodes(MergeNodes(nodeInfo, nodes, addNode), nodes, addNode) == MergeNodes(nodeInfo, nodes, addNode)
  {
    var once := MergeNodes(nodeInfo, nodes, addNode);
    var twice := MergeNodes(once, nodes, addNode);
    MergeNodesContents(nodeInfo, nodes, addNode);
    MergeNodesContents(once, nodes, addNode);
    assert twice.Keys == once.Keys;
    forall ip | ip in twice
      ensures twice[ip] == once[ip]
    {
    }
  }

  // ---------------------------------------------------------------------------
  // Refreshing one VDC entry, and every VDC of a cluster

  /**
   * One VDC's refresh: the identity is overwritten when its call succeeds, and
   * independently the node list is merged when its call succeeds. A failed
   * call leaves exactly its own part of the entry as it was.
   */
  function RefreshEntry(vname: string, entry: VdcEntry, response: VdcResponse, addNode: bool): (r: VdcEntry)
    ensures response.localVdc.None? ==>
              r.name == entry.name && r.id == entry.id && r.resolvedName == entry.resolvedName
    ensures response.localVdc.Some? ==>
              r.name == vname && r.id == response.localVdc.value.id && r.resolvedName == response.localVdc.value.name
    ensures response.nodes.None? ==> r.nodeInfo == entry.nodeInfo
    ensures response.nodes.Some? ==> r.nodeInfo == MergeNodes(entry.nodeInfo, response.nodes.value, addNode)
  {
    var identified :=
      if response.localVdc.Some? then
        entry.Update(vname, response.localVdc.value.id, response.localVdc.value.name)
      else entry;
    if response.nodes.Some? then
      identified.(nodeInfo := MergeNodes(identified.nodeInfo, response.nodes.value, addNode))
    else identified
  }

  /**
   * A whole cluster's refresh. Each entry is refreshed from its own answers
   * only, so the order in which the VDCs are visited does not matter.
   */
  function RefreshVdcs(vdcs: map<string, VdcEntry>, responses: Responses, addNode: bool): (r: map<string, VdcEntry>)
    ensures r.Keys == vdcs.Keys
  {
    map vname | vname in vdcs :: RefreshEntry(vname, vdcs[vname], ResponseFor(responses, vname), addNode)
  }

  /** No refresh removes a node, whatever addNode is and whichever calls fail. */
  lemma {:induction false} RefreshNeverRemovesNodes(vdcs: map<string, VdcEntry>, responses: Responses, addNode: bool)
    ensures forall vname :: vname in vdcs ==>
              vdcs[vname].nodeInfo.Keys <= RefreshVdcs(vdcs, responses, addNode)[vname].nodeInfo.Keys
  {
    forall vname | vname in vdcs
      ensures vdcs[vname].nodeInfo.Keys <= RefreshVdcs(vdcs, responses, addNode)[vname].nodeInfo.Keys
    {
      var response := ResponseFor(responses, vname);
      if response.nodes.Some? {
        MergeNodesContents(vdcs[vname].nodeInfo, response.nodes.value, addNode);
      }
    }
  }

  /** Without addNode the node key set of every VDC is exactly what it was: an unseen IP never appears. */
  lemma {:induction false} RefreshWithoutAddKeepsKeys(vdcs: map<string, VdcEntry>, responses: Responses)
    ensures forall vname :: vname in vdcs ==>
              RefreshVdcs(vdcs, responses, false)[vname].nodeInfo.Keys == vdcs[vname].nodeInfo.Keys
  {
    forall vname | vname in vdcs
      ensures RefreshVdcs(vdcs, responses, false)[vname].nodeInfo.Keys == vdcs[vname].nodeInfo.Keys
    {
      var response := ResponseFor(responses, vname);
      if response.nodes.Some? {
        MergeNodesContents(vdcs[vname].nodeInfo, response.nodes.value, false);
      }
    }
  }

  /**
   * With addNode and a successful node-list call, every listed IP is a key
   * afterwards, holding the node built from the last entry carrying that IP,
   * and no other key appears.
   */
  lemma {:induction false} RefreshWithAddCoversResponse(vdcs: map<string, VdcEntry>, responses: Responses, vname: string)
    requires vname in vdcs && ResponseFor(responses, vname).nodes.Some?
    ensures var nodes := ResponseFor(responses, vname).nodes.value;
            var after := RefreshVdcs(vdcs, responses, true)[vname].nodeInfo;
            && after.Keys == vdcs[vname].nodeInfo.Keys + IPs(nodes)
            && forall ip :: ip in IPs(nodes) ==> after[ip] == ToNode(nodes[LastIndex(nodes, ip)])
  {
    MergeNodesContents(vdcs[vname].nodeInfo, ResponseFor(responses, vname).nodes.value, true);
  }

  /** A node that the refresh did not hear about keeps its fields. */
  lemma {:induction false} RefreshKeepsUnlistedNodes(vdcs: map<string, VdcEntry>, responses: Responses, addNode: bool, vname: string, ip: string)
    requires vname in vdcs && ip in vdcs[vname].nodeInfo
    requires ResponseFor(responses, vname).nodes.Some? ==> ip !in IPs(ResponseFor(responses, vname).nodes.value)
    ensures ip in RefreshVdcs(vdcs, responses, addNode)[vname].nodeInfo
    ensures RefreshVdcs(vdcs, responses, addNode)[vname].nodeInfo[ip] == vdcs[vname].nodeInfo[ip]
  {
    var response := ResponseFor(responses, vname);
    if response.nodes.Some? {
      MergeNodesContents(vdcs[vname].nodeInfo, response.nodes.value, addNode);
    }
  }

  /** Refresh keeps every VDC's node map keyed by node IP. */
  lemma {:induction false} RefreshKeepsKeyedByIP(vdcs: map<string, VdcEntry>, responses: Responses, addNode: bool)
    requires forall vname :: vname in vdcs ==> KeyedByIP(vdcs[vname].nodeInfo)
    ensures forall vname :: vname in vdcs ==> KeyedByIP(RefreshVdcs(vdcs, responses, addNode)[vname].nodeInfo)
  {
    forall vname | vname in vdcs
      ensures KeyedByIP(RefreshVdcs(vdcs, responses, addNode)[vname].nodeInfo)
    {
      var response := ResponseFor(responses, vname);
      if response.nodes.Some? {
        MergeNodesKeyedByIP(vdcs[vname].nodeInfo, response.nodes.value, addNode);
      }
    }
  }

  /** A VDC's refreshed entry depends only on its own old entry and its own answers. */
  lemma RefreshIsPerVdc(vdcs1: map<string, VdcEntry>, responses1: Responses,
                        vdcs2: map<string, VdcEntry>, responses2: Responses, addNode: bool, vname: string)
    requires vname in vdcs1 && vname in vdcs2 && vdcs1[vname] == vdcs2[vname]
    requires ResponseFor(responses1, vname) == ResponseFor(responses2, vname)
    ensures RefreshVdcs(vdcs1, responses1, addNode)[vname] == RefreshVdcs(vdcs2, responses2, addNode)[vname]
  {
  }

  /** Refreshing twice with the same answers gives the same state as refreshing once. */
  lemma {:induction false} RefreshIdempotent(vdcs: map<string, VdcEntry>, responses: Responses, addNode: bool)
    ensures RefreshVdcs(RefreshVdcs(vdcs, responses, addNode), responses, addNode) == RefreshVdcs(vdcs, responses, addNode)
  {
    var once := RefreshVdcs(vdcs, responses, addNode);
    var twice := RefreshVdcs(once, responses, addNode);
    forall vname | vname in twice
      ensures twice[vname] == once[vname]
    {
      var response := ResponseFor(responses, vname);
      if response.nodes.Some? {
        MergeNodesIdempotent(vdcs[vname].nodeInfo, response.nodes.value, addNode);
      }
    }
  }

  /**
   * Scenario: a cluster with VDCs "vdc1" and "vdc2", refreshed with addNode;
   * vdc1's node list names a single new node 10.0.0.1, vdc2's node-list call
   * fails. Afterwards vdc1 holds that node and vdc2's nodes are as before.
   */
  lemma TwoVdcScenario(vdc1: VdcEntry, vdc2: VdcEntry, identity1: Option<VdcIdentity>, identity2: Option<VdcIdentity>)
    requires "10.0.0.1" !in vdc1.nodeInfo
    ensures var record := NodeRecord("n1", "10.0.0.1", "node1", "3.0");
            var vdcs := map["vdc1" := vdc1, "vdc2" := vdc2];
            var responses := map["vdc1" := VdcResponse(identity1, Some([record])),
                                 "vdc2" := VdcResponse(identity2, None)];
            var after := RefreshVdcs(vdcs, responses, true);
            && after["vdc1"].nodeInfo == vdc1.nodeInfo["10.0.0.1" := Node("n1", "10.0.0.1", "node1", "3.0")]
            && after["vdc2"].nodeInfo == vdc2.nodeInfo
  {
    var record := NodeRecord("n1", "10.0.0.1", "node1", "3.0");
    var vdcs := map["vdc1" := vdc1, "vdc2" := vdc2];
    var responses := map["vdc1" := VdcResponse(identity1, Some([record])),
                         "vdc2" := VdcResponse(identity2, None)];
    assert [record][..0] == [];
    assert MergeNodes(vdc1.nodeInfo, [record], true) == vdc1.nodeInfo["10.0.0.1" := ToNode(record)];
    assert ResponseFor(responses, "vdc1").nodes == Some([record]);
    assert ResponseFor(responses, "vdc2").nodes == None;
  }
}
