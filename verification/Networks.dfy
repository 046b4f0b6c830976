/** The mutable overlay network of `Network`: its parallel lists and the operations that keep them in step. */
module Networks {
  import opened Lists
  import opened Overlay
  import opened Allocation
  import opened Decode

  datatype NetError =
    | NodeNotInNetwork
    | NotAnAccessNode
    | NoPublicIpv4
    | NoPublicAddress
    | NoAccessNodeForHidden
    | NodeOrSubnetRequired
    | IpInUse
    | IpOutsideSubnet
    | SubnetNotFree
    | ReadOfMissingEntry
    | DeploymentNotFound
    | OtherRange

  datatype AccessConfig = AccessConfig(ipv4: bool, ipv6: bool)

  /** What a user needs to dial in: the subnet, its secret, and the node's key and port. */
  datatype WireguardConfig = WireguardConfig(subnet: Subnet, secret: PrivateKey, nodeKey: PublicKey, ipv4: bool,
                                             port: nat)

  class Node {
    const nodeId: NodeId
    var contractId: nat
    var reservedIps: seq<Ip>

    constructor (nodeId: NodeId)
      ensures this.nodeId == nodeId && contractId == 0 && reservedIps == []
    {
      this.nodeId, contractId, reservedIps := nodeId, 0, [];
    }

    function View(): NodeView
      reads this
    {
      NodeView(nodeId, contractId, reservedIps)
    }
  }

  class Znet {
    const site: Site
    var peers: seq<Peer>

    constructor (site: Site)
      ensures this.site == site && peers == []
    {
      this.site, peers := site, [];
    }
  }

  predicate DrawnFrom(choice: map<NodeId, NodeId>, accessNodes: set<NodeId>) {
    forall h :: h in choice ==> choice[h] in accessNodes
  }

  /** The hidden ones of the first `n` nodes. */
  ghost function HiddenAmong(sites: seq<Site>, endpoints: map<NodeId, string>, n: nat): set<NodeId>
    requires n <= |sites|
  {
    if |sites| == 1 then {} else set site | site in sites[..n] && !Visible(endpoints, site.nodeId) :: site.nodeId
  }

  /** What was chosen for the first `n` nodes. */
  ghost predicate Chosen(sites: seq<Site>, endpoints: map<NodeId, string>, n: nat,
                         choice: map<NodeId, NodeId>, hidden: seq<AccessPoint>, accessNodes: set<NodeId>)
    requires n <= |sites|
  {
    choice.Keys == HiddenAmong(sites, endpoints, n) && hidden == HiddenPoints(sites[..n], choice)
    && DrawnFrom(choice, accessNodes)
  }

  lemma HiddenAmongStep(sites: seq<Site>, endpoints: map<NodeId, string>, n: nat)
    requires n < |sites| && forall i, j :: 0 <= i < j < |sites| ==> sites[i].nodeId != sites[j].nodeId
    ensures HiddenAmong(sites, endpoints, n + 1) == HiddenAmong(sites, endpoints, n)
            + if |sites| == 1 || Visible(endpoints, sites[n].nodeId) then {} else {sites[n].nodeId}
    ensures forall s :: s in sites[..n] ==> s.nodeId != sites[n].nodeId
  {
    TakeStep(sites, n);
  }

  lemma HasSiteStep(sites: seq<Site>, site: Site, id: NodeId)
    ensures HasSite(sites + [site], id) <==> HasSite(sites, id) || site.nodeId == id
  {
    assert site in sites + [site];
    if s :| s in sites && s.nodeId == id {
      assert s in sites + [site];
    }
  }

  lemma HiddenAmongGrows(sites: seq<Site>, endpoints: map<NodeId, string>, n: nat, id: NodeId)
    requires n < |sites| && |sites| != 1 && sites[n].nodeId == id && !Visible(endpoints, id)
    ensures id in HiddenIds(sites, endpoints)
  {
    assert sites[n] in sites;
  }

  lemma HiddenPointsStep(sites: seq<Site>, choice: map<NodeId, NodeId>, n: nat, drawn: NodeId)
    requires n < |sites| && forall s :: s in sites[..n] ==> s.nodeId != sites[n].nodeId
    ensures HiddenPoints(sites[..n + 1], choice[sites[n].nodeId := drawn])
            == HiddenPoints(sites[..n], choice) + [HiddenPoint(sites[n], drawn)]
  {
    TakeStep(sites, n);
    HiddenPointsFrame(sites[..n], choice, choice[sites[n].nodeId := drawn]);
  }

  lemma HiddenPointsSkip(sites: seq<Site>, choice: map<NodeId, NodeId>, n: nat)
    requires n < |sites| && sites[n].nodeId !in choice
    ensures HiddenPoints(sites[..n + 1], choice) == HiddenPoints(sites[..n], choice)
  {
    TakeStep(sites, n);
  }

  // ----- What is stored and loaded

  /** A network workload of a member's deployment; `deleted` once the node reports it gone. */
  datatype PublishedTable = PublishedTable(view: NetView, deleted: bool)

  predicate IsCurrent(table: PublishedTable) {
    0 <= table.view.site.subnet < 256 && !table.deleted
  }

  function Current(tables: seq<PublishedTable>): seq<NetView> {
    if tables == [] then []
    else Current(Front(tables)) + if IsCurrent(Last(tables)) then [Last(tables).view] else []
  }

  function Repeated(record: NodeView, n: nat): seq<NodeView> {
    if n == 0 then [] else Repeated(record, n - 1) + [record]
  }

  function Owned(nodeId: NodeId, views: seq<NetView>): seq<NetView> {
    if views == [] then []
    else Owned(nodeId, Front(views)) + [NetView(Last(views).site.(nodeId := nodeId), Last(views).peers)]
  }

  function TablesOf(record: NodeView, published: map<nat, seq<PublishedTable>>): seq<NetView> {
    if record.contractId in published then Current(published[record.contractId]) else []
  }

  function LoadedNodes(stored: seq<NodeView>, published: map<nat, seq<PublishedTable>>): seq<NodeView> {
    if stored == [] then []
    else LoadedNodes(Front(stored), published) + Repeated(Last(stored), |TablesOf(Last(stored), published)|)
  }

  function LoadedNets(stored: seq<NodeView>, published: map<nat, seq<PublishedTable>>): seq<NetView> {
    if stored == [] then []
    else LoadedNets(Front(stored), published) + Owned(Last(stored).nodeId, TablesOf(Last(stored), published))
  }

  lemma OwnedStep(record: NodeView, views: seq<NetView>, view: NetView)
    ensures Repeated(record, |views| + 1) == Repeated(record, |views|) + [record]
    ensures Owned(record.nodeId, views + [view])
            == Owned(record.nodeId, views) + [NetView(view.site.(nodeId := record.nodeId), view.peers)]
  {
    assert Front(views + [view]) == views;
  }

  lemma PushedStep(record: NodeView, tables: seq<PublishedTable>, i: nat, nodes: seq<NodeView>, nets: seq<NetView>)
    requires i < |tables| && IsCurrent(tables[i])
    ensures var view := tables[i].view;
            && (nodes + Repeated(record, |Current(tables[..i])|)) + [record]
               == nodes + Repeated(record, |Current(tables[..i + 1])|)
            && (nets + Owned(record.nodeId, Current(tables[..i])))
               + [NetView(view.site.(nodeId := record.nodeId), view.peers)]
               == nets + Owned(record.nodeId, Current(tables[..i + 1]))
  {
    TakeStep(tables, i);
    OwnedStep(record, Current(tables[..i]), tables[i].view);
  }

  lemma LoadedStep(stored: seq<NodeView>, published: map<nat, seq<PublishedTable>>, i: nat,
                   nodes: seq<NodeView>, nets: seq<NetView>)
    requires i < |stored|
    ensures var tables := TablesOf(stored[i], published);
            && (nodes + LoadedNodes(stored[..i], published)) + Repeated(stored[i], |tables|)
               == nodes + LoadedNodes(stored[..i + 1], published)
            && (nets + LoadedNets(stored[..i], published)) + Owned(stored[i].nodeId, tables)
               == nets + LoadedNets(stored[..i + 1], published)
  {
    TakeStep(stored, i);
    var tables := TablesOf(stored[i], published);
    assert LoadedNodes(stored[..i + 1], published)
           == LoadedNodes(stored[..i], published) + Repeated(stored[i], |tables|);
    assert LoadedNets(stored[..i + 1], published)
           == LoadedNets(stored[..i], published) + Owned(stored[i].nodeId, tables);
  }

  /** The contract noted for the records of a node that have none yet. */
  function Contracted(nodes: seq<NodeView>, contractId: nat, nodeId: NodeId): seq<NodeView> {
    seq(|nodes|, i requires 0 <= i < |nodes| =>
      if nodes[i].contractId == 0 && nodes[i].nodeId == nodeId then nodes[i].(contractId := contractId) else nodes[i])
  }

  /** What is stored for those of `some` that have a contract. */
  function Recorded(nodes: seq<NodeView>, some: seq<NodeView>): seq<NodeView> {
    if some == [] then []
    else
      var node := Last(some);
      Recorded(nodes, Front(some))
      + if node.contractId == 0 then [] else [NodeView(node.nodeId, node.contractId, NodeIps(nodes, node.nodeId))]
  }

  /** The first `n` records have had their contract noted. */
  ghost predicate Noted(was: seq<NodeView>, now: seq<NodeView>, contractId: nat, nodeId: NodeId, n: nat) {
    && |now| == |was| && n <= |was|
    && forall i :: 0 <= i < |was| ==> now[i] == if i < n then Contracted(was, contractId, nodeId)[i] else was[i]
  }

  /** Noting contracts touches no pool. */
  lemma NotedPool(was: seq<NodeView>, now: seq<NodeView>, contractId: nat, nodeId: NodeId, id: NodeId)
    requires |now| == |was|
    requires forall i :: 0 <= i < |was| ==> now[i] == was[i] || now[i] == Contracted(was, contractId, nodeId)[i]
    ensures NodeIps(now, id) == NodeIps(Contracted(was, contractId, nodeId), id)
  {
    SameIndex(now, Contracted(was, contractId, nodeId), id);
  }

  class Network {
    /** What the grid answers about a node's public endpoint and about access nodes, fixed for the session. */
    const endpoints: map<NodeId, string>
    const gridAccess: map<NodeId, AccessConfig>

    var nodes: seq<Node>
    var networks: seq<Znet>
    var accessPoints: seq<AccessPoint>
    var reservedSubnets: seq<Subnet>
    var accessNodes: set<NodeId>

    constructor (endpoints: map<NodeId, string>, gridAccess: map<NodeId, AccessConfig>)
      ensures Valid() && State() == NetState([], [], [], []) && accessNodes == {}
      ensures this.endpoints == endpoints && this.gridAccess == gridAccess
    {
      this.endpoints, this.gridAccess := endpoints, gridAccess;
      nodes, networks, accessPoints, reservedSubnets, accessNodes := [], [], [], [], {};
    }

    ghost predicate Valid()
      reads `nodes, `networks
    {
      && Distinct(nodes)
      && Distinct(networks)
      && forall i, j :: 0 <= i < j < |networks| ==> networks[i].site.nodeId != networks[j].site.nodeId
    }

    function NodeViews(): seq<NodeView>
      reads `nodes, nodes
    {
      var ns := nodes;
      seq(|ns|, i requires 0 <= i < |ns| reads ns => ns[i].View())
    }

    function Sites(): seq<Site>
      reads `networks
    {
      var ns := networks;
      seq(|ns|, i requires 0 <= i < |ns| => ns[i].site)
    }

    function State(): NetState
      reads this, nodes
    {
      NetState(NodeViews(), Sites(), accessPoints, reservedSubnets)
    }

    /** There is a record of the node, which its addresses are noted in. */
    ghost predicate HasRecord(nodeId: NodeId)
      reads `nodes, nodes
    {
      exists node :: node in nodes && node.nodeId == nodeId
    }

    // ----- Lookups

    method NodeExists(nodeId: NodeId) returns (found: bool)
      ensures found <==> HasSite(Sites(), nodeId)
    {
      for i := 0 to |networks|
        invariant forall k :: 0 <= k < i ==> networks[k].site.nodeId != nodeId
      {
        if networks[i].site.nodeId == nodeId {
          assert Sites()[i] in Sites();
          return true;
        }
      }
      return false;
    }

    method HasAccessPoint(nodeId: NodeId) returns (found: bool)
      ensures found <==> exists a :: a in accessPoints && a.nodeId == nodeId
    {
      for i := 0 to |accessPoints|
        invariant forall k :: 0 <= k < i ==> accessPoints[k].nodeId != nodeId
      {
        if accessPoints[i].nodeId == nodeId {
          return true;
        }
      }
      return false;
    }

    method GetNodeSubnet(nodeId: NodeId) returns (subnet: Option<Subnet>)
      ensures subnet == NodeSubnet(Sites(), nodeId)
    {
      for i := 0 to |networks|
        invariant forall k :: 0 <= k < i ==> networks[k].site.nodeId != nodeId
      {
        if networks[i].site.nodeId == nodeId {
          assert Sites()[i].nodeId == nodeId;
          assert SiteIndex(Sites(), nodeId) == i;
          return Some(networks[i].site.subnet);
        }
      }
      return None;
    }

    method GetNodeReservedIps(nodeId: NodeId) returns (ips: seq<Ip>)
      ensures ips == NodeIps(NodeViews(), nodeId)
    {
      for i := 0 to |nodes|
        invariant forall k :: 0 <= k < i ==> nodes[k].nodeId != nodeId
      {
        if nodes[i].nodeId == nodeId {
          assert NodeViews()[i].nodeId == nodeId;
          assert NodeIndex(NodeViews(), nodeId) == i;
          return nodes[i].reservedIps;
        }
      }
      return [];
    }

    method UpdateNetwork(subnet: Subnet) returns (znet: Znet?)
      ensures znet != null ==> exists i :: 0 <= i < |networks| && znet == networks[i] && znet.site.subnet == subnet
                                           && forall k :: 0 <= k < i ==> networks[k].site.subnet != subnet
      ensures znet == null ==> forall net :: net in networks ==> net.site.subnet != subnet
    {
      for i := 0 to |networks|
        invariant forall k :: 0 <= k < i ==> networks[k].site.subnet != subnet
      {
        if networks[i].site.subnet == subnet {
          return networks[i];
        }
      }
      return null;
    }

    // ----- Subnets

    method GetReservedSubnets() returns (reserved: seq<Subnet>)
      modifies this`reservedSubnets
      ensures State() == Refreshed(old(State())) && reserved == reservedSubnets
    {
      ReserveMembers();
      ReserveAll(PointSubnets(accessPoints));
      ReserveAll(SiteSubnets(Sites()));
      return reservedSubnets;
    }

    method ReserveMembers()
      modifies this`reservedSubnets
      ensures reservedSubnets == Extend(old(reservedSubnets), MemberSubnets(NodeViews(), Sites()))
    {
      var views, sites := NodeViews(), Sites();
      for i := 0 to |nodes|
        invariant reservedSubnets == Extend(old(reservedSubnets), MemberSubnets(views[..i], sites))
      {
        TakeStep(views, i);
        var subnet := GetNodeSubnet(nodes[i].nodeId);
        if subnet.Some? {
          ExtendStep(old(reservedSubnets), MemberSubnets(views[..i], sites), subnet.value);
          if subnet.value !in reservedSubnets {
            reservedSubnets := reservedSubnets + [subnet.value];
          }
        } else {
          assert MemberSubnets(views[..i], sites) + [] == MemberSubnets(views[..i], sites);
        }
      }
      TakeAll(views);
    }

    method ReserveAll(subnets: seq<Subnet>)
      modifies this`reservedSubnets
      ensures reservedSubnets == Extend(old(reservedSubnets), subnets)
    {
      for i := 0 to |subnets|
        invariant reservedSubnets == Extend(old(reservedSubnets), subnets[..i])
      {
        TakeStep(subnets, i);
        ExtendStep(old(reservedSubnets), subnets[..i], subnets[i]);
        if subnets[i] !in reservedSubnets {
          reservedSubnets := reservedSubnets + [subnets[i]];
        }
      }
      TakeAll(subnets);
    }

    method GetFreeSubnet() returns (subnet: Subnet)
      modifies this`reservedSubnets
      ensures State() == Apply(old(State()), TakeSubnet)
      ensures subnet == FreeSubnet(old(State())) && subnet !in UsedSubnets(old(State())) && subnet >= 2
      ensures forall k :: 2 <= k < subnet ==> k in Reserved(old(State()))
    {
      var reserved := GetReservedSubnets();
      LeastFreeIs(reserved, 2);
      subnet := 2;
      while subnet in reserved
        invariant subnet <= LeastFree(reserved, 2) && LeastFree(reserved, subnet) == LeastFree(reserved, 2)
        modifies {}
        decreases LeastFree(reserved, 2) - subnet
      {
        subnet := subnet + 1;
        LeastFreeIs(reserved, subnet);
      }
      assert LeastFree(reserved, subnet) == subnet;
      FreeSubnetIsFree(old(State()));
      reservedSubnets := reservedSubnets + [subnet];
    }

    method ValidateFreeSubnet(subnet: Subnet) returns (r: Result<Subnet, NetError>)
      modifies this`reservedSubnets
      ensures State() == Apply(old(State()), ClaimSubnet(subnet))
      ensures r == if subnet in Reserved(old(State())) then Err(SubnetNotFree) else Ok(subnet)
    {
      var reserved := GetReservedSubnets();
      if subnet !in reserved {
        reservedSubnets := reservedSubnets + [subnet];
        return Ok(subnet);
      }
      return Err(SubnetNotFree);
    }

    // ----- Addresses

    /** `subnet` stands in for the node's own only while the node has no table; an address is only handed out if
        there is a record to note it in. */
    method GetFreeIp(nodeId: NodeId, subnet: Option<Subnet>) returns (r: Result<Ip, NetError>)
      requires Valid()
      modifies nodes
      ensures Valid()
      ensures r.Ok? <==> HasRecord(nodeId) && (HasSite(Sites(), nodeId) || subnet.Some?)
      ensures r.Ok? && HasSite(Sites(), nodeId) ==>
                State() == Apply(old(State()), TakeIp(nodeId))
                && r.value == FreeIp(old(State()), nodeId) && r.value !in NodeIps(old(State()).nodes, nodeId)
      ensures r.Ok? && HasSite(Sites(), nodeId) ==>
                var first := NodeSubnet(Sites(), nodeId).value * 256 + 2;
                first <= r.value && forall ip :: first <= ip < r.value ==> ip in NodeIps(old(State()).nodes, nodeId)
      ensures r.Ok? && !HasSite(Sites(), nodeId) ==>
                r.value == Host(subnet.value, 2)
                && State() == old(State()).(nodes := PushIp(old(NodeViews()), nodeId, r.value))
      ensures r.Err? ==> State() == old(State())
    {
      var ip := ChooseIp(nodeId, subnet);
      if ip.None? {
        return Err(NodeOrSubnetRequired);
      }
      ghost var was := State();
      var pushed := PushReservedIp(nodeId, ip.value);
      if !pushed {
        NotPushed(was.nodes, nodeId, ip.value);
        return Err(NodeNotInNetwork);
      }
      LeastFromSecond(was, nodeId);
      return Ok(ip.value);
    }

    lemma LeastFromSecond(s: NetState, nodeId: NodeId)
      ensures HasSite(s.sites, nodeId) ==>
                var first := NodeSubnet(s.sites, nodeId).value * 256 + 2;
                && first <= FreeIp(s, nodeId)
                && forall ip :: first <= ip < FreeIp(s, nodeId) ==> ip in NodeIps(s.nodes, nodeId)
    {
      if HasSite(s.sites, nodeId) {
        LeastFreeIs(NodeIps(s.nodes, nodeId), NodeSubnet(s.sites, nodeId).value * 256 + 2);
      }
    }

    /** The first free address of a member; the first of the given subnet for a node that is none. */
    method ChooseIp(nodeId: NodeId, subnet: Option<Subnet>) returns (ip: Option<Ip>)
      ensures HasSite(Sites(), nodeId) ==>
                ip == Some(FreeIp(State(), nodeId)) && ip.value !in NodeIps(NodeViews(), nodeId)
      ensures !HasSite(Sites(), nodeId) ==> ip == if subnet.Some? then Some(Host(subnet.value, 2)) else None
    {
      var known := NodeExists(nodeId);
      if !known && subnet.Some? {
        return Some(Host(subnet.value, 2));
      } else if known {
        var free := ProbeIp(nodeId);
        LeastFreeIs(NodeIps(NodeViews(), nodeId), Host(NodeSubnet(Sites(), nodeId).value, 2));
        return Some(free);
      }
      return None;
    }

    method ProbeIp(nodeId: NodeId) returns (ip: Ip)
      requires HasSite(Sites(), nodeId)
      ensures ip == FreeIp(State(), nodeId)
    {
      var own := GetNodeSubnet(nodeId);
      var reserved := GetNodeReservedIps(nodeId);
      ghost var from := Host(own.value, 2);
      ip := Host(own.value, 2);
      LeastFreeIs(reserved, from);
      while ip in reserved
        invariant ip <= LeastFree(reserved, from) && LeastFree(reserved, ip) == LeastFree(reserved, from)
        modifies {}
        decreases LeastFree(reserved, from) - ip
      {
        ip := ip + 1;
        LeastFreeIs(reserved, ip);
      }
      assert LeastFree(reserved, ip) == ip;
    }

    /** Gives `ip` to the first record of the node. */
    method PushReservedIp(nodeId: NodeId, ip: Ip) returns (pushed: bool)
      requires Distinct(nodes)
      modifies nodes
      ensures State() == old(State()).(nodes := PushIp(old(NodeViews()), nodeId, ip))
      ensures pushed <==> HasRecord(nodeId)
    {
      ghost var was := NodeViews();
      for i := 0 to |nodes|
        invariant forall k :: 0 <= k < i ==> nodes[k].nodeId != nodeId
        invariant NodeViews() == was
      {
        if nodes[i].nodeId == nodeId {
          assert was[i].nodeId == nodeId && forall k :: 0 <= k < i ==> was[k].nodeId != nodeId;
          assert NodeIndex(was, nodeId) == i;
          nodes[i].reservedIps := nodes[i].reservedIps + [ip];
          assert NodeViews() == PushIp(was, nodeId, ip);
          return true;
        }
      }
      return false;
    }

    /** For a node with a table but no record nothing is noted, and nothing returned. */
    method ValidateUserIp(nodeId: NodeId, ip: Ip) returns (r: Result<Option<Ip>, NetError>)
      requires Valid()
      modifies nodes
      ensures Valid()
      ensures State() == Apply(old(State()), ClaimIp(nodeId, ip))
      ensures r.Ok? <==> HasSite(Sites(), nodeId) && ip !in NodeIps(old(State()).nodes, nodeId)
                         && InSubnet(ip, NodeSubnet(Sites(), nodeId).value)
      ensures r.Ok? ==> r.value == if HasRecord(nodeId) then Some(ip) else None
    {
      var reserved := GetNodeReservedIps(nodeId);
      if ip in reserved {
        return Err(IpInUse);
      }
      var subnet := GetNodeSubnet(nodeId);
      if subnet.None? {
        return Err(ReadOfMissingEntry);
      }
      if !InSubnet(ip, subnet.value) {
        return Err(IpOutsideSubnet);
      }
      var pushed := PushReservedIp(nodeId, ip);
      return Ok(if pushed then Some(ip) else None);
    }

    method DeleteReservedIp(nodeId: NodeId, ip: Ip) returns (freed: Ip)
      requires Valid()
      modifies nodes
      ensures Valid()
      ensures State() == Apply(old(State()), ReleaseIp(nodeId, ip)) && freed == ip
    {
      ghost var was := NodeViews();
      for i := 0 to |nodes|
        invariant forall k :: 0 <= k < i ==> nodes[k].View() == DropIp(was, nodeId, ip)[k]
        invariant forall k :: i <= k < |nodes| ==> nodes[k].View() == was[k]
      {
        if nodes[i].nodeId == nodeId {
          nodes[i].reservedIps := WithoutIp(nodes[i].reservedIps, ip);
        }
      }
      assert NodeViews() == DropIp(was, nodeId, ip);
      return ip;
    }

    // ----- Peer generation

    /** `plan` speaks about this network, with access nodes drawn from the known ones. */
    ghost predicate Plans(plan: Plan)
      reads `networks, `accessPoints, `accessNodes
    {
      && plan.sites == Sites() && plan.accessPoints == accessPoints && plan.endpoints == endpoints
      && plan.choice.Keys == HiddenIds(plan.sites, endpoints)
      && DrawnFrom(plan.choice, accessNodes)
      && Distinct(plan.reserved)
      && (forall subnet :: subnet in SiteSubnets(plan.sites) + PointSubnets(accessPoints) ==> subnet in plan.reserved)
    }

    /** The tables of all nodes are the ones `plan` prescribes. */
    ghost predicate Matches(plan: Plan)
      reads `networks, `accessPoints, `accessNodes, networks
    {
      && Plans(plan)
      && forall k :: 0 <= k < |networks| ==> networks[k].peers == Table(plan, networks[k].site)
    }

    function DrawableAccessNodes(): set<NodeId>
      reads `networks, `accessNodes
    {
      if accessNodes != {} then accessNodes else set id | id in gridAccess && HasSite(Sites(), id)
    }

    /** Peers cannot be generated for these members: some of several are hidden, and an access node is neither
        known yet nor among them. */
    ghost predicate Unmeshable(sites: seq<Site>)
      reads `accessNodes
    {
      HiddenIds(sites, endpoints) != {} && accessNodes == {} && forall id :: id in gridAccess ==> !HasSite(sites, id)
    }

    ghost predicate UnmeshableWith(nodeId: NodeId)
      reads `networks, `accessNodes
    {
      Unmeshable(Sites() + [Site(nodeId, 0, 0, 0)])
    }

    /** Whom peers may be drawn from: the access nodes known already, else the grid's access nodes among the members. */
    ghost predicate DrawsFrom(known: set<NodeId>)
      reads `networks, `accessNodes
    {
      if known != {} then accessNodes == known
      else forall id :: id in accessNodes ==> id in gridAccess && HasSite(Sites(), id)
    }

    lemma NothingDrawable()
      ensures HiddenIds(Sites(), endpoints) != {} && DrawableAccessNodes() == {} <==> Unmeshable(Sites())
    {
      var drawable := DrawableAccessNodes();
      assert forall id :: id in gridAccess && HasSite(Sites(), id) && accessNodes == {} ==> id in drawable;
    }

    /** Of a new member only the id matters. */
    lemma UnmeshableById(sites: seq<Site>, site: Site)
      ensures Unmeshable(sites + [site]) <==> Unmeshable(sites + [Site(site.nodeId, 0, 0, 0)])
    {
      var bare := Site(site.nodeId, 0, 0, 0);
      forall id ensures HasSite(sites + [site], id) <==> HasSite(sites + [bare], id) {
        HasSiteStep(sites, site, id);
        HasSiteStep(sites, bare, id);
      }
      HiddenStep(sites, site);
      HiddenStep(sites, bare);
    }

    lemma HiddenStep(sites: seq<Site>, site: Site)
      ensures HiddenIds(sites + [site], endpoints) == {} <==>
              sites == []
              || (Visible(endpoints, site.nodeId) && forall s :: s in sites ==> Visible(endpoints, s.nodeId))
    {
      var more := sites + [site];
      assert site in more && forall s :: s in sites ==> s in more;
      assert |more| != 1 ==>
        forall s :: s in more && !Visible(endpoints, s.nodeId) ==> s.nodeId in HiddenIds(more, endpoints);
    }

    /** An access node among the members is enough. */
    lemma MeshableWithAccess(sites: seq<Site>, id: NodeId)
      requires id in gridAccess && HasSite(sites, id)
      ensures !Unmeshable(sites)
    {
    }

    /** An access node meshes, and so does whoever joins a network that has one. */
    lemma MeshableThrough(access: NodeId, nodeId: NodeId)
      requires access in gridAccess && (access == nodeId || HasSite(Sites(), access))
      ensures !UnmeshableWith(nodeId)
    {
      HasSiteStep(Sites(), Site(nodeId, 0, 0, 0), access);
    }

    method GetAccessNodes() returns (ids: set<NodeId>)
      modifies this`accessNodes
      ensures ids == accessNodes == old(DrawableAccessNodes())
      ensures forall id :: id in ids <==>
                if old(accessNodes) != {} then id in old(accessNodes) else id in gridAccess && HasSite(Sites(), id)
    {
      if accessNodes != {} {
        return accessNodes;
      }
      ids := {};
      var left := gridAccess.Keys;
      while left != {}
        invariant left <= gridAccess.Keys && accessNodes == {}
        invariant ids == set id | id in gridAccess && id !in left && HasSite(Sites(), id)
        decreases |left|
      {
        var id :| id in left;
        var known := NodeExists(id);
        if known {
          ids := ids + {id};
        }
        left := left - {id};
      }
      accessNodes := ids;
    }

    method DrawAccessNode() returns (drawn: Option<NodeId>)
      modifies this`accessNodes
      ensures drawn.None? <==> old(DrawableAccessNodes()) == {}
      ensures drawn.Some? ==> drawn.value in accessNodes
      ensures accessNodes == DrawableAccessNodes() == old(DrawableAccessNodes())
      ensures old(accessNodes) != {} ==> accessNodes == old(accessNodes)
    {
      var drawable := GetAccessNodes();
      if drawable == {} {
        return None;
      }
      var id :| id in drawable;
      return Some(id);
    }

    /** One node's turn: an access node is drawn for it if it is hidden. */
    method ChooseFor(sites: seq<Site>, n: nat, choice: map<NodeId, NodeId>, hidden: seq<AccessPoint>)
      returns (ok: bool, choice': map<NodeId, NodeId>, hidden': seq<AccessPoint>)
      requires n < |sites| && forall i, j :: 0 <= i < j < |sites| ==> sites[i].nodeId != sites[j].nodeId
      requires Chosen(sites, endpoints, n, choice, hidden, accessNodes)
      modifies this`accessNodes
      ensures DrawableAccessNodes() == old(DrawableAccessNodes()) && DrawsFrom(old(accessNodes))
      ensures ok ==> Chosen(sites, endpoints, n + 1, choice', hidden', accessNodes)
      ensures ok && choice'.Keys != {} ==> choice.Keys != {} || DrawableAccessNodes() != {}
      ensures !ok ==> DrawableAccessNodes() == {} && HiddenIds(sites, endpoints) != {}
    {
      HiddenAmongStep(sites, endpoints, n);
      var id := sites[n].nodeId;
      if |sites| == 1 || Visible(endpoints, id) {
        HiddenPointsSkip(sites, choice, n);
        return true, choice, hidden;
      }
      var drawn := DrawAccessNode();
      if drawn.None? {
        HiddenAmongGrows(sites, endpoints, n, id);
        return false, choice, hidden;
      }
      HiddenPointsStep(sites, choice, n, drawn.value);
      return true, choice[id := drawn.value], hidden + [HiddenPoint(sites[n], drawn.value)];
    }

    /** Draws an access node for every hidden one. */
    method ChooseAccessNodes() returns (r: Result<map<NodeId, NodeId>, NetError>, hidden: seq<AccessPoint>)
      requires Valid()
      modifies this`accessNodes
      ensures r.Ok? ==> r.value.Keys == HiddenIds(Sites(), endpoints) && hidden == HiddenPoints(Sites(), r.value)
                        && DrawnFrom(r.value, accessNodes)
      ensures r.Err? <==> HiddenIds(Sites(), endpoints) != {} && old(DrawableAccessNodes()) == {}
      ensures r.Err? ==> r.error == NoAccessNodeForHidden
      ensures DrawsFrom(old(accessNodes))
    {
      var choice: map<NodeId, NodeId> := map[];
      hidden := [];
      var sites := Sites();
      ghost var drawable := DrawableAccessNodes();
      for i := 0 to |networks|
        invariant Chosen(sites, endpoints, i, choice, hidden, accessNodes)
        invariant DrawableAccessNodes() == drawable && DrawsFrom(old(accessNodes))
        invariant choice.Keys != {} ==> drawable != {}
      {
        var ok;
        ok, choice, hidden := ChooseFor(sites, i, choice, hidden);
        if !ok {
          return Err(NoAccessNodeForHidden), hidden;
        }
      }
      TakeAll(sites);
      return Ok(choice), hidden;
    }

    /** Bringing the reserved list up to date on the way may have happened or not; it comes to the plan's list. */
    ghost predicate Settling(was: seq<Subnet>, plan: Plan)
      reads this, nodes
    {
      (reservedSubnets == was || reservedSubnets == plan.reserved) && plan.reserved == Reserved(State())
    }

    /** What a hidden node sends through its access node besides that one's own: every other reserved subnet, the
        list being brought up to date first. */
    method CollectReserved(own: Site, other: Site) returns (allowed: seq<Prefix>)
      modifies this`reservedSubnets
      ensures State() == Refreshed(old(State())) && allowed == RoutesExcept(reservedSubnets, own.subnet, other.subnet)
    {
      allowed := [];
      var reserved := GetReservedSubnets();
      for k := 0 to |reserved|
        modifies {}
        invariant allowed == RoutesExcept(reserved[..k], own.subnet, other.subnet)
      {
        TakeStep(reserved, k);
        var subnet := reserved[k];
        if subnet == own.subnet || subnet == other.subnet {
          continue;
        }
        allowed := allowed + [Lan(subnet)];
        allowed := allowed + [Wg(subnet)];
        assert allowed == RoutesExcept(reserved[..k], own.subnet, other.subnet) + [Lan(subnet), Wg(subnet)];
      }
      TakeAll(reserved);
    }

    /** The points behind `other` that are not among the routes yet. */
    method CollectPoints(other: Site, points: seq<AccessPoint>, base: seq<Prefix>) returns (allowed: seq<Prefix>)
      ensures allowed == WithPoints(base, points, other.nodeId)
    {
      allowed := base;
      for k := 0 to |points|
        invariant allowed == WithPoints(base, points[..k], other.nodeId)
      {
        TakeStep(points, k);
        var point := points[k];
        if point.nodeId == other.nodeId {
          if Lan(point.subnet) in allowed {
            continue;
          }
          allowed := allowed + [Lan(point.subnet)];
          allowed := allowed + [Wg(point.subnet)];
          assert allowed == WithPoints(base, points[..k], other.nodeId) + [Lan(point.subnet), Wg(point.subnet)];
        }
      }
      TakeAll(points);
    }

    /** What `own` may send through `other`. */
    method CollectAllowedIps(own: Site, other: Site, ghost plan: Plan, hidden: bool, points: seq<AccessPoint>)
      returns (allowed: seq<Prefix>)
      requires hidden <==> own.nodeId in plan.choice
      requires points == Points(plan) && plan.reserved == Reserved(State())
      modifies this`reservedSubnets
      ensures allowed == AllowedIps(plan, own, other)
      ensures Settling(old(reservedSubnets), plan)
    {
      allowed := [];
      if hidden {
        ReservedIdempotent(State());
        allowed := CollectReserved(own, other);
      }
      allowed := allowed + [Lan(other.subnet)];
      allowed := allowed + [Wg(other.subnet)];
      assert allowed == BaseRoutes(plan, own, other);
      allowed := CollectPoints(other, points, allowed);
    }

    /** Rewrites one node's table: first its tunnels to other nodes. */
    method GenerateMesh(n: Znet, ghost plan: Plan, choice: map<NodeId, NodeId>, points: seq<AccessPoint>)
      requires plan.sites == Sites() && plan.endpoints == endpoints && plan.choice == choice
      requires points == Points(plan) && plan.reserved == Reserved(State())
      modifies this`reservedSubnets, n
      ensures n.peers == MeshPeers(plan, n.site, plan.sites)
      ensures Settling(old(reservedSubnets), plan)
    {
      n.peers := [];
      var sites := Sites();
      for j := 0 to |networks|
        invariant n.peers == MeshPeers(plan, n.site, sites[..j])
        invariant Settling(old(reservedSubnets), plan)
      {
        TakeStep(sites, j);
        var peer := MeshWith(n.site, networks[j].site, plan, choice, points);
        if peer.Some? {
          n.peers := n.peers + [peer.value];
        }
      }
      TakeAll(sites);
    }

    /** The tunnel from one node to another, if there is one. */
    method MeshWith(own: Site, other: Site, ghost plan: Plan, choice: map<NodeId, NodeId>, points: seq<AccessPoint>)
      returns (peer: Option<Peer>)
      requires plan.endpoints == endpoints && plan.choice == choice
      requires points == Points(plan) && plan.reserved == Reserved(State())
      modifies this`reservedSubnets
      ensures peer == if Meshes(plan, own, other) then Some(MeshPeer(plan, own, other)) else None
      ensures Settling(old(reservedSubnets), plan)
    {
      if own.nodeId == other.nodeId {
        return None;
      }
      var hidden := own.nodeId in choice;
      if hidden && other.nodeId != choice[own.nodeId] {
        return None;
      }
      var allowed := CollectAllowedIps(own, other, plan, hidden, points);
      if !Visible(endpoints, other.nodeId) {
        return None;
      }
      return Some(Peer(other.subnet, PublicKey(other.privateKey), allowed,
                       ListenAt(endpoints[other.nodeId], other.port)));
    }

    /** Then one peer for every point hanging off it. */
    method GeneratePoints(n: Znet, points: seq<AccessPoint>)
      modifies n
      ensures n.peers == old(n.peers) + PointPeers(points, n.site.nodeId)
    {
      for k := 0 to |points|
        invariant n.peers == old(n.peers) + PointPeers(points[..k], n.site.nodeId)
      {
        TakeStep(points, k);
        if n.site.nodeId == points[k].nodeId {
          n.peers := n.peers + [PointPeer(points[k])];
          assert n.peers == old(n.peers) + (PointPeers(points[..k], n.site.nodeId) + [PointPeer(points[k])]);
        }
      }
      TakeAll(points);
    }

    method GenerateTable(n: Znet, ghost plan: Plan, choice: map<NodeId, NodeId>, points: seq<AccessPoint>)
      requires plan.sites == Sites() && plan.endpoints == endpoints && plan.choice == choice
      requires points == Points(plan) && plan.reserved == Reserved(State())
      modifies this`reservedSubnets, n
      ensures n.peers == Table(plan, n.site)
      ensures Settling(old(reservedSubnets), plan)
    {
      GenerateMesh(n, plan, choice, points);
      GeneratePoints(n, points);
    }

    method GenerateTables(ghost plan: Plan, choice: map<NodeId, NodeId>, points: seq<AccessPoint>)
      requires Distinct(networks)
      requires plan.sites == Sites() && plan.endpoints == endpoints && plan.choice == choice
      requires points == Points(plan) && plan.reserved == Reserved(State())
      modifies this`reservedSubnets, networks
      ensures forall k :: 0 <= k < |networks| ==> networks[k].peers == Table(plan, networks[k].site)
      ensures reservedSubnets == old(reservedSubnets) || reservedSubnets == plan.reserved
    {
      for i := 0 to |networks|
        invariant forall k :: 0 <= k < i ==> networks[k].peers == Table(plan, networks[k].site)
        invariant Settling(old(reservedSubnets), plan)
      {
        GenerateTable(networks[i], plan, choice, points);
      }
    }

    method GeneratePeers() returns (r: Result<(), NetError>, ghost plan: Plan)
      requires Valid() && Distinct(reservedSubnets)
      modifies this`reservedSubnets, this`accessNodes, networks
      ensures r.Ok? ==> Matches(plan)
      ensures DrawsFrom(old(accessNodes))
      ensures r.Err? <==> old(Unmeshable(Sites()))
      ensures r.Err? ==> r.error == NoAccessNodeForHidden && unchanged(networks)
      ensures Valid() && State() == old(State()).(reserved := reservedSubnets)
      ensures Grown(old(State()), reservedSubnets) && Distinct(reservedSubnets)
    {
      RefreshedIsGrown(State());
      NothingDrawable();
      var chosen, hidden := ChooseAccessNodes();
      if chosen.Err? {
        return Err(chosen.error), Plan([], [], map[], map[], []);
      }
      plan := GenerateWith(chosen.value, hidden);
      return Ok(()), plan;
    }

    /** All tables from one choice of access nodes for the hidden nodes. */
    method GenerateWith(choice: map<NodeId, NodeId>, hidden: seq<AccessPoint>) returns (ghost plan: Plan)
      requires Valid() && Distinct(reservedSubnets)
      requires choice.Keys == HiddenIds(Sites(), endpoints) && hidden == HiddenPoints(Sites(), choice)
      requires DrawnFrom(choice, accessNodes)
      modifies this`reservedSubnets, networks
      ensures Matches(plan)
      ensures Grown(old(State()), reservedSubnets) && Distinct(reservedSubnets)
    {
      UsedAreReserved(State());
      RefreshedIsGrown(State());
      plan := Plan(Sites(), accessPoints, endpoints, choice, Reserved(State()));
      assert Plans(plan);
      GenerateTables(plan, choice, accessPoints + hidden);
    }

    // ----- Members and access points

    /** A free subnet, unless the caller has one. */
    method ProvideSubnet(subnet: Option<Subnet>) returns (own: Subnet)
      requires Distinct(reservedSubnets)
      modifies this`reservedSubnets
      ensures Distinct(reservedSubnets)
      ensures own == NewSubnet(old(State()), subnet) && State() == Provided(old(State()), subnet)
    {
      if subnet.Some? {
        return subnet.value;
      }
      FreeSubnetIsFree(State());
      UsedAreReserved(State());
      own := GetFreeSubnet();
    }

    /** The listing part of adding a member: its subnet and its table, still without peers. */
    method ListZnet(nodeId: NodeId, subnet: Option<Subnet>, key: PrivateKey, port: nat) returns (znet: Znet)
      requires Valid() && Distinct(reservedSubnets) && !HasSite(Sites(), nodeId)
      modifies this`networks, this`reservedSubnets
      ensures Valid() && Distinct(reservedSubnets)
      ensures znet.site == Site(nodeId, NewSubnet(old(State()), subnet), key, port)
      ensures State() == Listed(old(State()), subnet, znet.site)
      ensures networks == old(networks) + [znet] && fresh(znet)
      ensures Unmeshable(Sites()) <==> old(UnmeshableWith(nodeId))
    {
      NotAmongTables(nodeId);
      UnmeshableById(Sites(), Site(nodeId, NewSubnet(State(), subnet), key, port));
      var own := ProvideSubnet(subnet);
      ghost var provided := State();
      znet := new Znet(Site(nodeId, own, key, port));
      ListTable(znet);
      assert State() == provided.(sites := provided.sites + [znet.site]);
    }

    method ListTable(znet: Znet)
      requires Valid() && forall i :: 0 <= i < |networks| ==> networks[i].site.nodeId != znet.site.nodeId
      modifies this`networks
      ensures Valid() && networks == old(networks) + [znet] && Sites() == old(Sites()) + [znet.site]
    {
      networks := networks + [znet];
    }

    lemma NotAmongTables(nodeId: NodeId)
      requires !HasSite(Sites(), nodeId)
      ensures forall i :: 0 <= i < |networks| ==> networks[i].site.nodeId != nodeId
    {
      forall i | 0 <= i < |networks| ensures networks[i].site.nodeId != nodeId {
        assert Sites()[i] in Sites();
      }
    }

    /** A member was added: everybody's tables were generated anew, and `znet` is the table with its subnet. */
    ghost predicate Gains(was: NetState, op: Op, subnet: Subnet, plan: Plan, znet: Znet)
      reads this, nodes, networks
    {
      Steps(was, op, State()) && Matches(plan) && znet in networks && znet.site.subnet == subnet
    }

    /** The new member's table is listed, but nobody's peers could be generated. */
    ghost predicate LeftListed(was: NetState, nodes: seq<Node>, site: Site, error: NetError)
      reads `nodes, `networks
    {
      error == NoAccessNodeForHidden && this.nodes == nodes && Sites() == was.sites + [site]
    }

    /** The listed table with everybody's peers brought up to date. */
    method ListWithPeers(nodeId: NodeId, subnet: Option<Subnet>, key: PrivateKey, port: nat)
      returns (znet: Znet, r: Result<(), NetError>, ghost plan: Plan)
      requires Valid() && Distinct(reservedSubnets) && !HasSite(Sites(), nodeId)
      modifies this`networks, this`reservedSubnets, this`accessNodes, networks
      ensures Valid() && Distinct(reservedSubnets)
      ensures networks == old(networks) + [znet] && fresh(znet)
      ensures znet.site == Site(nodeId, NewSubnet(old(State()), subnet), key, port)
      ensures State() == Listed(old(State()), subnet, znet.site).(reserved := reservedSubnets)
      ensures Grown(Listed(old(State()), subnet, znet.site), reservedSubnets)
      ensures r.Ok? ==> Matches(plan)
      ensures r.Err? ==> r.error == NoAccessNodeForHidden
      ensures r.Err? <==> old(UnmeshableWith(nodeId))
    {
      znet := ListZnet(nodeId, subnet, key, port);
      r, plan := GeneratePeers();
    }

    method AddMissingNode(nodeId: NodeId, subnet: Option<Subnet>, key: PrivateKey, port: nat)
      returns (r: Result<Znet, NetError>, ghost plan: Plan)
      requires Valid() && Distinct(reservedSubnets) && !HasSite(Sites(), nodeId)
      modifies this`nodes, this`networks, this`reservedSubnets, this`accessNodes, networks
      ensures Valid() && Distinct(reservedSubnets)
      ensures old(nodes) <= nodes && forall i :: |old(nodes)| <= i < |nodes| ==> fresh(nodes[i])
      ensures networks != [] && networks == old(networks) + [Last(networks)] && fresh(Last(networks))
      ensures r.Err? <==> old(UnmeshableWith(nodeId))
      ensures var was, own := old(State()), NewSubnet(old(State()), subnet);
              if r.Ok? then Gains(was, NodeOp(nodeId, subnet, key, port), own, plan, r.value)
              else LeftListed(was, old(nodes), Site(nodeId, own, key, port), r.error)
    {
      ghost var was := State();
      var znet, generated;
      znet, generated, plan := ListWithPeers(nodeId, subnet, key, port);
      assert Last(networks) == znet;
      if generated.Err? {
        r := Err(generated.error);
      } else {
        var found := Record(znet, was, subnet, plan);
        r := Ok(found);
      }
    }

    /** The recording part of adding a member, which also looks its table up again. */
    method Record(listed: Znet, ghost was: NetState, ghost subnet: Option<Subnet>, ghost plan: Plan)
      returns (found: Znet)
      requires Distinct(nodes) && !HasSite(was.sites, listed.site.nodeId) && listed in networks
      requires listed.site.subnet == NewSubnet(was, subnet)
      requires State() == Listed(was, subnet, listed.site).(reserved := reservedSubnets)
      requires Grown(Listed(was, subnet, listed.site), reservedSubnets) && Matches(plan)
      modifies this`nodes
      ensures Distinct(nodes) && old(nodes) <= nodes && forall i :: |old(nodes)| <= i < |nodes| ==> fresh(nodes[i])
      ensures Gains(was, NodeOp(listed.site.nodeId, subnet, listed.site.privateKey, listed.site.port),
                    listed.site.subnet, plan, found)
    {
      var znet := UpdateNetwork(listed.site.subnet);
      RecordNode(listed.site.nodeId);
      AddedNode(was, State(), listed.site.nodeId, subnet, listed.site.privateKey, listed.site.port);
      return znet;
    }

    /** Adds a member, on a free subnet or on the caller's. When no access node can be drawn for a hidden
        node the operation fails with the new table already listed. */
    method AddNode(nodeId: NodeId, subnet: Option<Subnet>, key: PrivateKey, port: nat)
      returns (r: Result<Znet?, NetError>, ghost plan: Plan)
      requires Valid() && Distinct(reservedSubnets)
      modifies this`nodes, this`networks, this`reservedSubnets, this`accessNodes, networks
      ensures Valid() && Distinct(reservedSubnets)
      ensures old(nodes) <= nodes && forall i :: |old(nodes)| <= i < |nodes| ==> fresh(nodes[i])
      ensures old(networks) <= networks && forall i :: |old(networks)| <= i < |networks| ==> fresh(networks[i])
      ensures r == Ok(null) <==> old(HasSite(Sites(), nodeId))
      ensures r == Ok(null) ==> unchanged(this) && unchanged(networks)
      ensures r.Err? <==> !old(HasSite(Sites(), nodeId)) && old(UnmeshableWith(nodeId))
      ensures var was, own := old(State()), NewSubnet(old(State()), subnet);
              && (r.Ok? && r.value != null ==> Gains(was, NodeOp(nodeId, subnet, key, port), own, plan, r.value))
              && (r.Err? ==> LeftListed(was, old(nodes), Site(nodeId, own, key, port), r.error))
    {
      var known := NodeExists(nodeId);
      if known {
        r, plan := Ok(null), Plan([], [], map[], map[], []);
      } else {
        var added;
        added, plan := AddMissingNode(nodeId, subnet, key, port);
        r := if added.Ok? then Ok(added.value) else Err(added.error);
      }
    }

    method RecordNode(nodeId: NodeId)
      requires Distinct(nodes)
      modifies this`nodes
      ensures Distinct(nodes) && NodeViews() == old(NodeViews()) + [NodeView(nodeId, 0, [])]
      ensures old(nodes) <= nodes && forall i :: |old(nodes)| <= i < |nodes| ==> fresh(nodes[i])
    {
      var node := new Node(nodeId);
      nodes := nodes + [node];
    }

    /** The listing part of adding access: a free subnet for the device. */
    method ListAccessPoint(nodeId: NodeId, publicKey: PublicKey) returns (subnet: Subnet)
      requires Valid() && Distinct(reservedSubnets) && HasSite(Sites(), nodeId)
      modifies this`accessPoints, this`reservedSubnets
      ensures Valid() && Distinct(reservedSubnets)
      ensures State() == Apply(old(State()), Op.AddAccess(nodeId, publicKey))
      ensures subnet == FreeSubnet(old(State()))
    {
      FreeSubnetIsFree(State());
      UsedAreReserved(State());
      subnet := GetFreeSubnet();
      accessPoints := accessPoints + [AccessPoint(subnet, publicKey, nodeId)];
    }

    /** Why a node cannot take user access, if it cannot. */
    function AccessRefusal(nodeId: NodeId, ipv4: bool): Option<NetError>
      reads `networks
    {
      if !HasSite(Sites(), nodeId) then Some(NodeNotInNetwork)
      else if nodeId !in gridAccess then Some(NotAnAccessNode)
      else if ipv4 && !gridAccess[nodeId].ipv4 then Some(NoPublicIpv4)
      else if !gridAccess[nodeId].ipv4 && !gridAccess[nodeId].ipv6 then Some(NoPublicAddress)
      else None
    }

    /** The device listed and everybody's peers brought up to date, which access node `nodeId` makes possible. */
    method ListAccess(nodeId: NodeId, publicKey: PublicKey) returns (subnet: Subnet, ghost plan: Plan)
      requires Valid() && Distinct(reservedSubnets) && HasSite(Sites(), nodeId) && nodeId in gridAccess
      modifies this`accessPoints, this`reservedSubnets, this`accessNodes, networks
      ensures Valid() && Distinct(reservedSubnets)
      ensures Steps(old(State()), Op.AddAccess(nodeId, publicKey), State()) && Matches(plan)
      ensures subnet == FreeSubnet(old(State()))
    {
      ghost var was := State();
      MeshableWithAccess(Sites(), nodeId);
      subnet := ListAccessPoint(nodeId, publicKey);
      var generated;
      generated, plan := GeneratePeers();
      AddedAccess(was, State(), nodeId, publicKey);
    }

    /** Gives a user a tunnel into the network through member `nodeId`. */
    method AddAccess(nodeId: NodeId, ipv4: bool, secret: PrivateKey)
      returns (r: Result<WireguardConfig, NetError>, ghost plan: Plan)
      requires Valid() && Distinct(reservedSubnets)
      modifies this`accessPoints, this`reservedSubnets, this`accessNodes, networks
      ensures Valid() && Distinct(reservedSubnets)
      ensures old(AccessRefusal(nodeId, ipv4)).Some? ==>
                r == Err(old(AccessRefusal(nodeId, ipv4)).value) && State() == old(State())
      ensures old(AccessRefusal(nodeId, ipv4)).None? ==>
                Steps(old(State()), Op.AddAccess(nodeId, PublicKey(secret)), State())
      ensures r.Ok? ==> Matches(plan) && old(AccessRefusal(nodeId, ipv4)).None?
      ensures r.Ok? ==> r.value.subnet == FreeSubnet(old(State())) && r.value.secret == secret
                        && exists s :: s in Sites() && s.nodeId == nodeId
                                       && r.value.nodeKey == PublicKey(s.privateKey) && r.value.port == s.port
      ensures r.Err? <==> old(AccessRefusal(nodeId, ipv4)).Some?
      ensures r.Ok? <==> old(HasSite(Sites(), nodeId)) && nodeId in gridAccess
                         && (gridAccess[nodeId].ipv4 || (gridAccess[nodeId].ipv6 && !ipv4))
      ensures r.Ok? ==> r.value.ipv4 == gridAccess[nodeId].ipv4
    {
      plan := Plan([], [], map[], map[], []);
      var refusal := AccessRefusal(nodeId, ipv4);
      if refusal.Some? {
        return Err(refusal.value), plan;
      }
      var subnet;
      subnet, plan := ListAccess(nodeId, PublicKey(secret));
      var site := GetNodeSite(nodeId);
      return Ok(WireguardConfig(subnet, secret, PublicKey(site.value.privateKey), gridAccess[nodeId].ipv4,
                                site.value.port)), plan;
    }

    /** Drops a member. Once any subnet is on the reserved list the operation fails after the lists were
        filtered, because the table it then looks up is already gone. */
    method DeleteNode(nodeId: NodeId, stored: bool) returns (r: Result<nat, NetError>)
      requires Valid()
      modifies this`nodes, this`networks
      ensures Valid()
      ensures State() == if stored then Apply(old(State()), Op.DeleteNode(nodeId)) else old(State())
      ensures r == if !stored then Ok(0)
                   else if reservedSubnets == [] then Ok(ContractOf(old(NodeViews()), nodeId))
                   else Err(ReadOfMissingEntry)
      ensures forall n :: n in nodes ==> n in old(nodes)
      ensures forall n :: n in networks ==> n in old(networks)
    {
      if !stored {
        return Ok(0);
      }
      var contractId := FilterNodes(nodeId);
      FilterNetworks(nodeId);
      if reservedSubnets != [] {
        return Err(ReadOfMissingEntry);
      }
      return Ok(contractId);
    }

    method FilterNodes(nodeId: NodeId) returns (contractId: nat)
      requires Distinct(nodes)
      modifies this`nodes
      ensures Distinct(nodes) && NodeViews() == OtherNodes(old(NodeViews()), nodeId)
      ensures contractId == ContractOf(old(NodeViews()), nodeId)
      ensures forall n :: n in nodes ==> n in old(nodes)
    {
      ghost var views := NodeViews();
      var kept: seq<Node> := [];
      contractId := 0;
      for i := 0 to |nodes|
        modifies {}
        invariant Distinct(kept) && forall n :: n in kept ==> n in nodes[..i]
        invariant |kept| == |OtherNodes(views[..i], nodeId)|
        invariant forall k :: 0 <= k < |kept| ==> kept[k].View() == OtherNodes(views[..i], nodeId)[k]
        invariant contractId == ContractOf(views[..i], nodeId)
      {
        TakeStep(views, i);
        TakeStep(nodes, i);
        if nodes[i].nodeId != nodeId {
          assert nodes[i] !in nodes[..i];
          DistinctFront(kept + [nodes[i]]);
          kept := kept + [nodes[i]];
        } else {
          contractId := nodes[i].contractId;
        }
      }
      TakeAll(views);
      nodes := kept;
      assert NodeViews() == OtherNodes(views, nodeId);
    }

    method FilterNetworks(nodeId: NodeId)
      requires Valid()
      modifies this`networks
      ensures Valid() && Sites() == OtherSites(old(Sites()), nodeId)
      ensures forall n :: n in networks ==> n in old(networks)
    {
      var sites := Sites();
      var kept: seq<Znet> := [];
      for i := 0 to |networks|
        modifies {}
        invariant forall n :: n in kept ==> n in networks[..i]
        invariant |kept| == |OtherSites(sites[..i], nodeId)|
        invariant forall k :: 0 <= k < |kept| ==> kept[k].site == OtherSites(sites[..i], nodeId)[k]
        invariant forall k, l :: 0 <= k < l < |kept| ==> kept[k].site.nodeId != kept[l].site.nodeId
      {
        TakeStep(sites, i);
        TakeStep(networks, i);
        if networks[i].site.nodeId != nodeId {
          forall k | 0 <= k < |kept| ensures kept[k].site.nodeId != networks[i].site.nodeId {
            assert kept[k] in networks[..i];
          }
          kept := kept + [networks[i]];
        }
      }
      TakeAll(sites);
      networks := kept;
      assert Sites() == OtherSites(sites, nodeId);
    }

    // ----- Reading access points back

    function NetViews(): seq<NetView>
      reads `networks, networks
    {
      var ns := networks;
      seq(|ns|, i requires 0 <= i < |ns| reads ns => NetView(ns[i].site, ns[i].peers))
    }

    method IsNodeKey(key: PublicKey) returns (found: bool)
      ensures found <==> NodeKey(NetViews(), key)
    {
      for i := 0 to |networks|
        invariant forall k :: 0 <= k < i ==> PublicKey(networks[k].site.privateKey) != key
      {
        if PublicKey(networks[i].site.privateKey) == key {
          assert NetViews()[i] in NetViews();
          return true;
        }
      }
      return false;
    }

    method GetAccessPoints()
      modifies this`accessPoints
      ensures accessPoints == old(accessPoints) + DecodePoints(NetViews(), NetViews())
    {
      ghost var was := accessPoints;
      var views := NetViews();
      for i := 0 to |networks|
        invariant accessPoints == was + DecodePoints(views, views[..i])
      {
        TakeStep(views, i);
        ghost var before := DecodePoints(views, views[..i]);
        ReadPoints(networks[i]);
        assert (was + before) + PointsIn(views, networks[i].peers, networks[i].site.nodeId)
               == was + (before + PointsIn(views, networks[i].peers, networks[i].site.nodeId));
      }
      TakeAll(views);
    }

    /** The user access points of one table. */
    method ReadPoints(net: Znet)
      modifies this`accessPoints
      ensures accessPoints == old(accessPoints) + PointsIn(NetViews(), net.peers, net.site.nodeId)
    {
      var peers := net.peers;
      for k := 0 to |peers|
        invariant accessPoints == old(accessPoints) + PointsIn(NetViews(), peers[..k], net.site.nodeId)
      {
        TakeStep(peers, k);
        var isNode := IsNodeKey(peers[k].publicKey);
        if isNode || peers[k].endpoint != Unset {
          continue;
        }
        accessPoints := accessPoints + [AccessPoint(peers[k].subnet, peers[k].publicKey, net.site.nodeId)];
      }
      TakeAll(peers);
    }

    method GetNodeSite(nodeId: NodeId) returns (site: Option<Site>)
      ensures site.Some? <==> HasSite(Sites(), nodeId)
      ensures site.Some? ==> site.value in Sites() && site.value.nodeId == nodeId
    {
      for i := 0 to |networks|
        invariant forall k :: 0 <= k < i ==> networks[k].site.nodeId != nodeId
      {
        if networks[i].site.nodeId == nodeId {
          assert Sites()[i] == networks[i].site;
          return Some(networks[i].site);
        }
      }
      return None;
    }

    // ----- Storing

    /** The records that are stored: those with a contract, one being noted on the way. None stored means that the
        network is deleted. */
    method Save(contractId: nat, nodeId: NodeId) returns (stored: seq<NodeView>)
      requires Distinct(nodes)
      modifies nodes
      ensures NodeViews() == Contracted(old(NodeViews()), contractId, nodeId)
      ensures stored == Recorded(NodeViews(), NodeViews())
    {
      ghost var was := NodeViews();
      ghost var noted := Contracted(was, contractId, nodeId);
      stored := [];
      for i := 0 to |nodes|
        invariant Noted(was, NodeViews(), contractId, nodeId, i)
        invariant stored == Recorded(noted, noted[..i])
      {
        TakeStep(noted, i);
        var record := SaveOne(i, contractId, nodeId, was);
        if record.Some? {
          stored := stored + [record.value];
        }
      }
      TakeAll(noted);
      assert NodeViews() == noted;
    }

    /** One record's turn: its contract is noted if it is due, and what is to be stored is returned. */
    method SaveOne(i: nat, contractId: nat, nodeId: NodeId, ghost was: seq<NodeView>) returns (record: Option<NodeView>)
      requires Distinct(nodes) && i < |nodes| && Noted(was, NodeViews(), contractId, nodeId, i)
      modifies nodes[i]
      ensures Noted(was, NodeViews(), contractId, nodeId, i + 1)
      ensures var noted := Contracted(was, contractId, nodeId);
              record == if noted[i].contractId == 0 then None
                        else Some(NodeView(noted[i].nodeId, noted[i].contractId, NodeIps(noted, noted[i].nodeId)))
    {
      ghost var before := NodeViews();
      NoteContract(nodes[i], contractId, nodeId);
      assert forall k :: 0 <= k < |nodes| && k != i ==> NodeViews()[k] == before[k];
      assert NodeViews()[i] == Contracted(was, contractId, nodeId)[i];
      if nodes[i].contractId == 0 {
        return None;
      }
      var ips := GetNodeReservedIps(nodes[i].nodeId);
      NotedPool(was, NodeViews(), contractId, nodeId, nodes[i].nodeId);
      return Some(NodeView(nodes[i].nodeId, nodes[i].contractId, ips));
    }

    method NoteContract(node: Node, contractId: nat, nodeId: NodeId)
      modifies node
      ensures node.View() == Contracted([old(node.View())], contractId, nodeId)[0]
    {
      if node.contractId == 0 && node.nodeId == nodeId {
        node.contractId := contractId;
      }
    }

    /** Appends what was stored, each record with the tables its deployment carries, decodes the access points and
        stores the members again; refused for a network stored with another range. */
    method Load(stored: seq<NodeView>, sameRange: bool, published: map<nat, seq<PublishedTable>>)
      returns (r: Result<seq<NodeView>, NetError>)
      modifies this`nodes, this`networks, this`accessPoints
      ensures r.Ok? <==> sameRange && forall n :: n in stored ==> n.contractId in published
      ensures r.Err? ==> r.error == if sameRange then DeploymentNotFound else OtherRange
      ensures r.Ok? ==> r.value == Recorded(NodeViews(), NodeViews())
      ensures r.Ok? ==> NodeViews() == old(NodeViews()) + LoadedNodes(stored, published)
      ensures r.Ok? ==> NetViews() == old(NetViews()) + LoadedNets(stored, published)
      ensures r.Ok? ==> accessPoints == old(accessPoints) + DecodePoints(NetViews(), NetViews())
      ensures forall n :: n in nodes ==> n in old(nodes) || fresh(n)
    {
      if !sameRange {
        return Err(OtherRange);
      }
      var ok := LoadTables(stored, published);
      if !ok {
        return Err(DeploymentNotFound);
      }
      var again := StoreAgain();
      return Ok(again);
    }

    method LoadTables(stored: seq<NodeView>, published: map<nat, seq<PublishedTable>>) returns (ok: bool)
      modifies this`nodes, this`networks, this`accessPoints
      ensures ok <==> forall n :: n in stored ==> n.contractId in published
      ensures ok ==> NodeViews() == old(NodeViews()) + LoadedNodes(stored, published)
      ensures ok ==> NetViews() == old(NetViews()) + LoadedNets(stored, published)
      ensures ok ==> accessPoints == old(accessPoints) + DecodePoints(NetViews(), NetViews())
      ensures forall n :: n in nodes ==> n in old(nodes) || fresh(n)
    {
      ok := LoadMembers(stored, published);
      if ok {
        GetAccessPoints();
      }
    }

    /** A save without a contract to note: what is stored are the records that have one. */
    method StoreAgain() returns (stored: seq<NodeView>)
      ensures stored == Recorded(NodeViews(), NodeViews())
    {
      var views := NodeViews();
      stored := [];
      for i := 0 to |nodes|
        invariant stored == Recorded(views, views[..i])
      {
        TakeStep(views, i);
        if nodes[i].contractId == 0 {
          continue;
        }
        var ips := GetNodeReservedIps(nodes[i].nodeId);
        stored := stored + [NodeView(nodes[i].nodeId, nodes[i].contractId, ips)];
      }
      TakeAll(views);
    }

    /** The first `n` stored records have been appended to what was there. */
    ghost predicate LoadedTo(stored: seq<NodeView>, n: nat, published: map<nat, seq<PublishedTable>>,
                             wasNodes: seq<NodeView>, wasNets: seq<NetView>)
      reads `nodes, nodes, `networks, networks
    {
      && n <= |stored|
      && (forall k :: 0 <= k < n ==> stored[k].contractId in published)
      && NodeViews() == wasNodes + LoadedNodes(stored[..n], published)
      && NetViews() == wasNets + LoadedNets(stored[..n], published)
    }

    method LoadMembers(stored: seq<NodeView>, published: map<nat, seq<PublishedTable>>) returns (ok: bool)
      modifies this`nodes, this`networks
      ensures ok <==> forall n :: n in stored ==> n.contractId in published
      ensures ok ==> NodeViews() == old(NodeViews()) + LoadedNodes(stored, published)
      ensures ok ==> NetViews() == old(NetViews()) + LoadedNets(stored, published)
      ensures forall n :: n in nodes ==> n in old(nodes) || fresh(n)
    {
      ghost var wasNodes, wasNets := NodeViews(), NetViews();
      ok := true;
      for i := 0 to |stored|
        invariant LoadedTo(stored, i, published, wasNodes, wasNets)
        invariant forall n :: n in nodes ==> n in old(nodes) || fresh(n)
      {
        ok := LoadAt(stored, i, published, wasNodes, wasNets);
        if !ok {
          return;
        }
      }
      TakeAll(stored);
    }

    method LoadAt(stored: seq<NodeView>, i: nat, published: map<nat, seq<PublishedTable>>,
                  ghost wasNodes: seq<NodeView>, ghost wasNets: seq<NetView>) returns (found: bool)
      requires i < |stored| && LoadedTo(stored, i, published, wasNodes, wasNets)
      modifies this`nodes, this`networks
      ensures found <==> stored[i].contractId in published
      ensures found ==> LoadedTo(stored, i + 1, published, wasNodes, wasNets)
      ensures forall n :: n in nodes ==> n in old(nodes) || fresh(n)
    {
      found := stored[i].contractId in published;
      if found {
        LoadOne(stored[i], published[stored[i].contractId]);
        LoadedStep(stored, published, i, wasNodes, wasNets);
      }
    }

    method LoadOne(record: NodeView, tables: seq<PublishedTable>)
      modifies this`nodes, this`networks
      ensures NodeViews() == old(NodeViews()) + Repeated(record, |Current(tables)|)
      ensures NetViews() == old(NetViews()) + Owned(record.nodeId, Current(tables))
      ensures forall n :: n in nodes ==> n in old(nodes) || fresh(n)
    {
      var node := new Node(record.nodeId);
      node.contractId, node.reservedIps := record.contractId, record.reservedIps;
      ghost var wasNodes, wasNets := NodeViews(), NetViews();
      for i := 0 to |tables|
        modifies this`nodes, this`networks
        invariant node.View() == record
        invariant NodeViews() == wasNodes + Repeated(record, |Current(tables[..i])|)
        invariant NetViews() == wasNets + Owned(record.nodeId, Current(tables[..i]))
        invariant forall n :: n in nodes ==> n in old(nodes) || n == node
      {
        TakeStep(tables, i);
        if !IsCurrent(tables[i]) {
          assert Current(tables[..i + 1]) == Current(tables[..i]);
          continue;
        }
        PushedStep(record, tables, i, wasNodes, wasNets);
        PushLoaded(node, tables[i].view);
      }
      TakeAll(tables);
    }

    method PushLoaded(node: Node, view: NetView)
      modifies this`nodes, this`networks
      ensures nodes == old(nodes) + [node] && NodeViews() == old(NodeViews()) + [node.View()]
      ensures NetViews() == old(NetViews()) + [NetView(view.site.(nodeId := node.nodeId), view.peers)]
    {
      var znet := new Znet(view.site.(nodeId := node.nodeId));
      znet.peers := view.peers;
      nodes := nodes + [node];
      networks := networks + [znet];
    }
  }

  ghost function NewSubnet(s: NetState, subnet: Option<Subnet>): Subnet {
    if subnet.None? then FreeSubnet(s) else subnet.value
  }

  /** The state with the table listed but the member not yet recorded. */
  ghost function Listed(s: NetState, subnet: Option<Subnet>, site: Site): NetState {
    Provided(s, subnet).(sites := s.sites + [site])
  }

  ghost function Provided(s: NetState, subnet: Option<Subnet>): NetState {
    if subnet.None? then WithReserved(s, FreeSubnet(s)) else s
  }

  ghost function NodeOp(nodeId: NodeId, subnet: Option<Subnet>, key: PrivateKey, port: nat): Op {
    if subnet.None? then Op.AddNode(nodeId, key, port) else AddNodeAt(nodeId, key, port, subnet.value)
  }

  lemma AddedNode(s: NetState, t: NetState, nodeId: NodeId, subnet: Option<Subnet>, key: PrivateKey, port: nat)
    requires !HasSite(s.sites, nodeId)
    requires var listed := Listed(s, subnet, Site(nodeId, NewSubnet(s, subnet), key, port));
             t == listed.(nodes := s.nodes + [NodeView(nodeId, 0, [])], reserved := t.reserved)
             && Grown(listed, t.reserved)
    ensures Steps(s, NodeOp(nodeId, subnet, key, port), t)
  {
    var listed := Listed(s, subnet, Site(nodeId, NewSubnet(s, subnet), key, port));
    var applied := Apply(s, NodeOp(nodeId, subnet, key, port));
    assert applied == listed.(nodes := t.nodes);
    assert UsedSubnets(applied) == UsedSubnets(listed);
  }

  lemma AddedAccess(s: NetState, t: NetState, nodeId: NodeId, publicKey: PublicKey)
    requires var listed := Apply(s, Op.AddAccess(nodeId, publicKey));
             t == listed.(reserved := t.reserved) && Grown(listed, t.reserved)
    ensures Steps(s, Op.AddAccess(nodeId, publicKey), t)
  {
  }
}
