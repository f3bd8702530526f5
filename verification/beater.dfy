/**
 * The clusters the beat polls and the fleet that owns them. An EcsCluster
 * holds its VDC table as a map field that Refresh updates in place; an
 * EcsClusters holds the kept commands and the clusters in customer order.
 * The management API is replaced by the answers it gives during one refresh.
 */
module Beater {
  import opened Topology
  import opened Commands

  /** A customer as configured: its name and the VDC table its configuration yields. */
  datatype Customer = Customer(name: string, vdcs: map<string, VdcEntry>)

  /** The already-parsed configuration the fleet is built from. */
  datatype Config = Config(period: int, commands: seq<CommandConfig>, customers: seq<Customer>)

  /**
   * Merges one node list into a VDC's node map, entry by entry: a known IP
   * is updated, an unseen one inserted only when addNode holds.
   */
  method MergeNodeList(nodeInfo: map<string, Node>, nodes: seq<NodeRecord>, addNode: bool)
    returns (merged: map<string, Node>)
    ensures merged == MergeNodes(nodeInfo, nodes, addNode)
  {
    merged := nodeInfo;
    for i := 0 to |nodes|
      invariant merged == MergeNodes(nodeInfo, nodes[..i], addNode)
    {
      var n := nodes[i];
      if n.ip in merged {
        merged := merged[n.ip := merged[n.ip].Update(n.nodeId, n.ip, n.nodename, n.version)];
      } else if addNode {
        merged := merged[n.ip := Node(n.nodeId, n.ip, n.nodename, n.version)];
      }
      assert nodes[..i + 1][..i] == nodes[..i];
    }
    assert nodes[..|nodes|] == nodes;
  }

  /** One customer's storage cluster and the topology held for it. */
  class EcsCluster {
    var customerName: string
    var cfgRefresh: int
    var vdcs: map<string, VdcEntry>

    /**
     * NewEcsCluster: the VDC table comes from the customer's configuration;
     * the customer name and the refresh interval are left at their zero values.
     */
    constructor (customer: Customer)
      ensures vdcs == customer.vdcs
      ensures customerName == "" && cfgRefresh == 0
    {
      customerName := "";
      cfgRefresh := 0;
      vdcs := customer.vdcs;
    }

    /**
     * Refreshes every VDC, in an arbitrary order, from the answers the
     * management API gives for it during this refresh.
     */
    method Refresh(addNode: bool, responses: Responses)
      modifies this
      ensures vdcs == RefreshVdcs(old(vdcs), responses, addNode)
      ensures customerName == old(customerName) && cfgRefresh == old(cfgRefresh)
    {
      ghost var before := vdcs;
      var todo := vdcs.Keys;
      while todo != {}
        invariant todo <= before.Keys && vdcs.Keys == before.Keys
        invariant forall vname :: vname in todo ==> vdcs[vname] == before[vname]
        invariant forall vname :: vname in before && vname !in todo ==>
                    vdcs[vname] == RefreshEntry(vname, before[vname], ResponseFor(responses, vname), addNode)
        invariant customerName == old(customerName) && cfgRefresh == old(cfgRefresh)
        decreases todo
      {
        var vname :| vname in todo;
        var entry := vdcs[vname];
        var response := ResponseFor(responses, vname);
        if response.localVdc.Some? {
          entry := entry.Update(vname, response.localVdc.value.id, response.localVdc.value.name);
        }
        if response.nodes.Some? {
          var merged := MergeNodeList(entry.nodeInfo, response.nodes.value, addNode);
          entry := entry.(nodeInfo := merged);
        }
        vdcs := vdcs[vname := entry];
        todo := todo - {vname};
      }
      assert vdcs == RefreshVdcs(before, responses, addNode);
    }
  }

  /** The answers cluster i sees; a cluster without recorded answers sees every call fail. */
  function ResponsesFor(responses: seq<Responses>, i: nat): Responses
  {
    if i < |responses| then responses[i] else map[]
  }

  /** The fleet: the kept commands and one cluster per customer. */
  class EcsClusters {
    var cmds: seq<Command>
    var ecsSlice: seq<EcsCluster>

    /** No cluster appears twice, so the clusters own disjoint state. */
    ghost predicate Valid()
      reads this
    {
      forall i, j :: 0 <= i < j < |ecsSlice| ==> ecsSlice[i] != ecsSlice[j]
    }

    /** NewEcsClusters: the enabled commands, then one new cluster per customer, in order. */
    constructor (config: Config)
      ensures Valid()
      ensures cmds == EnabledCommands(config.commands, config.period)
      ensures |ecsSlice| == |config.customers|
      ensures forall i :: 0 <= i < |ecsSlice| ==>
                && fresh(ecsSlice[i])
                && ecsSlice[i].vdcs == config.customers[i].vdcs
                && ecsSlice[i].customerName == "" && ecsSlice[i].cfgRefresh == 0
    {
      var kept := BuildCommands(config.commands, config.period);
      var clusters: seq<EcsCluster> := [];
      for i := 0 to |config.customers|
        invariant |clusters| == i
        invariant forall j, k :: 0 <= j < k < i ==> clusters[j] != clusters[k]
        invariant forall j :: 0 <= j < i ==>
                    && fresh(clusters[j])
                    && clusters[j].vdcs == config.customers[j].vdcs
                    && clusters[j].customerName == "" && clusters[j].cfgRefresh == 0
      {
        var cluster := new EcsCluster(config.customers[i]);
        clusters := clusters + [cluster];
      }
      cmds := kept;
      ecsSlice := clusters;
    }

    /**
     * Refreshes every cluster in list order, each from its own answers;
     * each cluster's refresh changes that cluster only.
     */
    method Refresh(addNode: bool, responses: seq<Responses>)
      requires Valid()
      modifies ecsSlice
      ensures forall i :: 0 <= i < |ecsSlice| ==>
                && ecsSlice[i].vdcs == RefreshVdcs(old(ecsSlice[i].vdcs), ResponsesFor(responses, i), addNode)
                && ecsSlice[i].customerName == old(ecsSlice[i].customerName)
                && ecsSlice[i].cfgRefresh == old(ecsSlice[i].cfgRefresh)
    {
      for i := 0 to |ecsSlice|
        invariant forall j :: 0 <= j < i ==>
                    ecsSlice[j].vdcs == RefreshVdcs(old(ecsSlice[j].vdcs), ResponsesFor(responses, j), addNode)
        invariant forall j :: i <= j < |ecsSlice| ==> ecsSlice[j].vdcs == old(ecsSlice[j].vdcs)
        invariant forall j :: 0 <= j < |ecsSlice| ==>
                    ecsSlice[j].customerName == old(ecsSlice[j].customerName)
                    && ecsSlice[j].cfgRefresh == old(ecsSlice[j].cfgRefresh)
      {
        ecsSlice[i].Refresh(addNode, ResponsesFor(responses, i));
      }
    }
  }

  /**
   * Scenario: customer "acme" with VDCs "vdc1" and "vdc2" and no automatic
   * refresh. One fleet refresh with addNode, where vdc1's node list names the
   * new node 10.0.0.1 and vdc2's node-list call fails, leaves vdc1 holding that
   * node and vdc2's nodes as they were.
   */
  method AcmeFleetScenario(vdc1: VdcEntry, vdc2: VdcEntry, identity1: Option<VdcIdentity>, identity2: Option<VdcIdentity>)
    returns (nodes1: map<string, Node>, nodes2: map<string, Node>)
    requires "10.0.0.1" !in vdc1.nodeInfo
    ensures nodes1 == vdc1.nodeInfo["10.0.0.1" := Node("n1", "10.0.0.1", "node1", "3.0")]
    ensures nodes2 == vdc2.nodeInfo
  {
    var acme := Customer("acme", map["vdc1" := vdc1, "vdc2" := vdc2]);
    var fleet := new EcsClusters(Config(0, [], [acme]));
    var responses := map["vdc1" := VdcResponse(identity1, Some([NodeRecord("n1", "10.0.0.1", "node1", "3.0")])),
                         "vdc2" := VdcResponse(identity2, None)];
    fleet.Refresh(true, [responses]);
    TwoVdcScenario(vdc1, vdc2, identity1, identity2);
    nodes1 := fleet.ecsSlice[0].vdcs["vdc1"].nodeInfo;
    nodes2 := fleet.ecsSlice[0].vdcs["vdc2"].nodeInfo;
  }
}
