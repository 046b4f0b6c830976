/** Deployments and the operations planned on them. */
module Workloads {
  import opened Lists
  import opened Overlay

  datatype WorkloadType =
    | Zmachine | Zmount | NetworkResource | Zdb | Ipv4 | PublicIp | GatewayFqdnProxy | GatewayNameProxy | Qsfs

  /** The parts of a workload's data the planner looks at; `rest` is everything else. */
  datatype Data =
    | MachineData(network: string, ip: Ip, publicIp: string, mounts: seq<string>, rootfs: nat, memory: nat,
                  rest: string)
    | NetworkData(subnet: Subnet, peers: seq<Peer>)
    | SizedData(bytes: nat, rest: string)
    | NamedData(name: string, rest: string)
    | OtherData(rest: string)

  datatype Workload = Workload(
    name: string, wtype: WorkloadType, version: nat, metadata: string, description: string, data: Data)

  datatype DeploymentView = DeploymentView(version: nat, contractId: nat, workloads: seq<Workload>)

  /** A deployment in the making or already on a node; contract 0 stands for none yet. */
  class Deployment {
    var version: nat
    var contractId: nat
    var workloads: seq<Workload>

    constructor (version: nat, contractId: nat, workloads: seq<Workload>)
      ensures View() == DeploymentView(version, contractId, workloads)
    {
      this.version, this.contractId, this.workloads := version, contractId, workloads;
    }

    function View(): DeploymentView
      reads this
    {
      DeploymentView(version, contractId, workloads)
    }
  }

  datatype Operation = Deploy | Update | Delete

  datatype TwinView = TwinView(
    deployment: DeploymentView, operation: Operation, publicIps: nat, nodeId: NodeId, network: Option<string>)

  /** One planned operation. It holds its deployment by value, and knows its network by name. */
  class TwinDeployment {
    var deployment: DeploymentView
    const operation: Operation
    var publicIps: nat
    var nodeId: NodeId
    var network: Option<string>

    constructor (deployment: DeploymentView, operation: Operation, publicIps: nat, nodeId: NodeId,
                 network: Option<string>)
      ensures View() == TwinView(deployment, operation, publicIps, nodeId, network)
    {
      this.deployment, this.operation, this.publicIps := deployment, operation, publicIps;
      this.nodeId, this.network := nodeId, network;
    }

    function View(): TwinView
      reads this
    {
      TwinView(deployment, operation, publicIps, nodeId, network)
    }
  }

  function Names(workloads: seq<Workload>): seq<string> {
    seq(|workloads|, i requires 0 <= i < |workloads| => workloads[i].name)
  }

  /** No two workloads of one list share a name. */
  predicate UniqueNames(workloads: seq<Workload>) {
    forall i, j :: 0 <= i < j < |workloads| ==> workloads[i].name != workloads[j].name
  }

  function Size(w: Workload): nat {
    if w.data.MachineData? then w.data.rootfs else if w.data.SizedData? then w.data.bytes else 0
  }

  function Memory(w: Workload): nat {
    if w.data.MachineData? then w.data.memory else 0
  }
}
