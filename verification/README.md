# ecsbeat topology refresh, modelled in Dafny

ecsbeat polls a fleet of storage clusters. It keeps, for each cluster, an
in-memory table of that cluster's virtual datacenters (VDCs). Each VDC entry
holds the VDC's identity and a map from node IP to the member node. This
project models how that table is refreshed, in `beater/ecsclusters.go`:

- `EcsCluster.Refresh(addnode)` visits every configured VDC. It asks the
  management API for the local VDC identity and overwrites the entry's
  identity when that succeeds. It then asks for the node list and merges it
  into the node map when that succeeds. A known IP is updated. An unseen IP
  is inserted only when `addnode` holds. A failed call changes nothing and
  stops nothing.
- `NewEcsClusters` keeps the enabled commands in order. Each kept command
  takes its own interval when positive, else the global period. It then
  builds one cluster per customer.
- `EcsClusters.Refresh` refreshes every cluster in list order.

Files:

- `topology.dfy` (module `Topology`) holds the value types: `Node`,
  `VdcEntry`, the answers of the two management-API calls
  (`VdcResponse`, `Responses`). It also holds the specification of a refresh
  as functions (`MergeNodes`, `RefreshEntry`, `RefreshVdcs`) and the lemmas
  about them.
- `commands.dfy` (module `Commands`) holds the command filter: the
  specification `EnabledCommands`, its characterisation, and the loop
  `BuildCommands`.
- `beater.dfy` (module `Beater`) holds the classes `EcsCluster` and
  `EcsClusters`. Their methods update the state in place with loops and are
  proved equal to the specification functions.

The management API is replaced by its answers. For one refresh of one
cluster, `Responses` maps a VDC name to an optional identity and an optional
node list. `None` means the call returned an error. A VDC name missing from
the map stands for both calls failing. For a fleet refresh, cluster `i` gets
the `i`-th table; a cluster without a table sees every call fail.

The source iterates over a Go map, so the VDC visit order is unspecified.
`EcsCluster.Refresh` picks the next VDC with `:|`, so its proof holds for
every order. Its specification `RefreshVdcs` is a map comprehension, in
which order plays no part.

The model follows these details of the code:

- `Node.Update` (line 28) is passed the IP together with the ID, name and
  version. The IP passed is the key it was found under, so a node filed under
  its own IP keeps that IP.
- The VDC entry's `Update` (line 23) is passed the configured VDC name as well
  as the ID and name the server reported, so a successful identity call
  overwrites all three identity fields.
- `NewEcsCluster` (lines 39-50) sets neither `CustomerName` nor `CfgRefresh`.
  The constructors state that both stay at their zero values (`""` and `0`).
  Nothing in `beater/ecsclusters.go` ever sets `CfgRefresh`, so the scheduler's
  `CfgRefresh > 0` test (line 90) fails for every cluster built here. Other
  code may set it; that code is not part of this model.

## Model

| member | source | states |
|---|---|---|
| Topology.MergeNodesContents | beater/ecsclusters.go:26-31 | After merging a node list, the keys are the old keys, plus the listed IPs when addnode holds and no others. A listed IP holds the node of the last entry carrying it. Every other key keeps its old node. |
| Topology.MergeNodesKeyedByIP | beater/ecsclusters.go:28-30 | If every node is filed under its own IP before a merge, it still is afterwards. |
| Topology.MergeNodesIdempotent | beater/ecsclusters.go:26-31 | Merging the same node list twice gives the same map as merging it once. |
| Topology.RefreshEntry | beater/ecsclusters.go:22-33 | A failed identity call leaves name, ID and resolved name unchanged. A successful one sets them from the answer. The node merge happens exactly when the node-list call succeeds, whatever the identity call did. A failed node-list call leaves the node map unchanged. |
| Topology.RefreshVdcs | beater/ecsclusters.go:20-35 | A refresh keeps exactly the configured VDCs: none is added or dropped. |
| Topology.RefreshNeverRemovesNodes | beater/ecsclusters.go:21-35 | For every VDC, every node key before the refresh is still a key afterwards, whatever addnode is and whichever calls fail. |
| Topology.RefreshWithoutAddKeepsKeys | beater/ecsclusters.go:27-31 | With addnode false, every VDC's node key set is exactly what it was. An IP not present before never appears, even when the node list names it. |
| Topology.RefreshWithAddCoversResponse | beater/ecsclusters.go:26-31 | With addnode true and a successful node-list call, the VDC's keys are the old keys plus every listed IP. Each listed IP holds a node whose ID, IP, name and version are those of the last entry carrying that IP. |
| Topology.RefreshKeepsUnlistedNodes | beater/ecsclusters.go:25-32 | A node whose IP the node list does not mention, or whose VDC's node-list call failed, keeps its key and all its fields. |
| Topology.RefreshKeepsKeyedByIP | beater/ecsclusters.go:28-30 | If every VDC's node map is keyed by node IP before a refresh, it is afterwards. |
| Topology.RefreshIsPerVdc | beater/ecsclusters.go:21-35 | A VDC's new entry depends only on its own old entry and its own answers. A failure or answer for another VDC cannot change it. |
| Topology.RefreshIdempotent | beater/ecsclusters.go:20-35 | Refreshing twice with the same answers gives the same table as refreshing once. |
| Topology.TwoVdcScenario | beater/ecsclusters.go:20-35 | With VDCs vdc1 and vdc2 and addnode true, suppose vdc1's node list names the new node 10.0.0.1 and vdc2's node-list call fails. Then vdc1 gains exactly that node and vdc2's node map is unchanged. |
| Commands.EnabledPositions | beater/ecsclusters.go:61-62 | The positions of the enabled commands are strictly increasing. Each one is an enabled command, and every enabled command is listed. |
| Commands.EnabledCommandsAt | beater/ecsclusters.go:61-70 | The kept commands are exactly the enabled ones, in configured order. The j-th kept command copies URI, type and level from the j-th enabled command. Its interval is that command's own when positive, else the global period. |
| Commands.EnabledCommandsPositive | beater/ecsclusters.go:63-67 | With a positive global period, every kept command has a positive interval. |
| Commands.BuildCommands | beater/ecsclusters.go:60-70 | The appending loop produces exactly the specified kept-command list. |
| Beater.MergeNodeList | beater/ecsclusters.go:26-32 | The inner loop over the node list produces exactly the specified merge. |
| Beater.EcsCluster.constructor | beater/ecsclusters.go:39-50 | A new cluster holds the customer's VDC table. Its customer name and refresh interval stay at their zero values. |
| Beater.EcsCluster.Refresh | beater/ecsclusters.go:20-36 | Visiting the VDCs in any order, the new table equals the specified refresh of the old one. The customer name and interval are unchanged. |
| Beater.EcsClusters.constructor | beater/ecsclusters.go:59-77 | The command list is the specified kept-command list. There is one new, distinct cluster per customer, in customer order, each holding that customer's VDC table. |
| Beater.AcmeFleetScenario | beater/ecsclusters.go:59-84 | A fleet built for customer "acme" with VDCs vdc1 and vdc2, refreshed once with addnode true: when vdc1's node list names the new node 10.0.0.1 and vdc2's node-list call fails, vdc1 ends holding exactly that node besides its old ones and vdc2's node map is unchanged. |
| Beater.EcsClusters.Refresh | beater/ecsclusters.go:80-84 | Every cluster's table becomes the specified refresh of its own old table, from its own answers. Only the clusters' own state changes. |

## Left out

- `StartRefreshConfig` (beater/ecsclusters.go:87-109): goroutines, tickers, the wait group and the `done` channel. It is concurrency and timing, which this model does not describe.
- `ecs.GetLocalVDC` and `ecs.GetNodes` are network calls. They are replaced by the `Responses` input: one optional identity and one optional node list per VDC name. The error values themselves are not kept, and neither is the `// TODO log error` logging.
- `ecs.NewMgmtClient`, `GetClusterConfig` and `GetEcsFromConfig` are not part of this model. A `Customer` carries the VDC table its configuration yields, and no client is built.
- `Node.Update` and the VDC entry's `Update` are defined outside `beater/ecsclusters.go`. Both are assumed to be plain overwrites of the fields they are passed.
- `*Node` is a pointer in the source (line 30). The VDC entries in `Config.Vdcs`, whose type is defined outside `beater/ecsclusters.go`, are assumed to be pointers as well, so that the `Update` at line 23 changes the stored entry and not a loop-local copy; were they values, a successful identity call would have no lasting effect, and `RefreshEntry`'s identity clause would not hold. Here both are values inside the cluster's `vdcs` map, which `Refresh` reassigns. This assumes each entry and node is owned by exactly one map. Aliasing of those records by other code (such as metric emission reading them concurrently) is not captured.
- Nil values are not modelled. The table is built by `GetClusterConfig`, which is trusted to allocate every configured VDC entry and its `NodeInfo` map, to store no nil `*Node`, and to share no entry or node. Go would panic on a nil `NodeInfo` map when inserting at line 30, and, if `Update` writes through its receiver, on a nil `*Node` when calling `Update` at line 28; a Dafny `map<string, Node>` inside a `VdcEntry` value cannot hold either case.
- `*ClusterConfig` is folded into the cluster's `vdcs` field.
- `time.Duration` intervals are unbounded integers. The command `Type` and `Level` fields are modelled as strings.
