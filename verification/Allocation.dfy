/** Subnets and addresses: the allocating operations of `Network` on plain values, and what any run of them keeps. */
module Allocation {
  import opened Lists
  import opened Overlay

  /** A member's record; contract 0 stands for none yet. */
  datatype NodeView = NodeView(nodeId: NodeId, contractId: nat, reservedIps: seq<Ip>)

  datatype NetState = NetState(
    nodes: seq<NodeView>,
    sites: seq<Site>,
    accessPoints: seq<AccessPoint>,
    reserved: seq<Subnet>)

  // ----- Probing

  /** The first value from `from` on that is not taken. */
  function LeastFree(taken: seq<int>, from: int): int
    decreases |set x | x in taken && x >= from|
  {
    if from in taken then
      assert (set x | x in taken && x >= from) == (set x | x in taken && x >= from + 1) + {from};
      LeastFree(taken, from + 1)
    else from
  }

  lemma {:induction false} LeastFreeIs(taken: seq<int>, from: int)
    ensures from <= LeastFree(taken, from) && LeastFree(taken, from) !in taken
    ensures forall k :: from <= k < LeastFree(taken, from) ==> k in taken
    decreases |set x | x in taken && x >= from|
  {
    if from in taken {
      assert (set x | x in taken && x >= from) == (set x | x in taken && x >= from + 1) + {from};
      LeastFreeIs(taken, from + 1);
    }
  }

  lemma {:induction false} ProbeSteps(taken: seq<int>, from: int)
    ensures LeastFree(taken, from) <= from + |set x | x in taken && x >= from|
    decreases |set x | x in taken && x >= from|
  {
    if from in taken {
      assert (set x | x in taken && x >= from) == (set x | x in taken && x >= from + 1) + {from};
      ProbeSteps(taken, from + 1);
    }
  }

  /** The probe passes at most one value per entry: 253 entries leave room in a pool of 254. */
  lemma LeastFreeBound(taken: seq<int>, from: int)
    ensures LeastFree(taken, from) <= from + |taken|
  {
    ProbeSteps(taken, from);
    DistinctCardinality(taken);
    var ahead, all := set x | x in taken && x >= from, set x | x in taken;
    assert all == ahead + (all - ahead);
  }

  /** The probe stays below `to` exactly if something below `to` is free. */
  lemma LeastFreeWithin(taken: seq<int>, from: int, to: int)
    requires from <= to
    ensures LeastFree(taken, from) < to <==> exists k :: from <= k < to && k !in taken
  {
    LeastFreeIs(taken, from);
  }

  // ----- Lookups

  /** Position of the first entry for `id`, or the length when there is none. */
  function SiteIndex(sites: seq<Site>, id: NodeId): (i: nat)
    ensures i <= |sites| && (i < |sites| ==> sites[i].nodeId == id)
    ensures forall j :: 0 <= j < i ==> sites[j].nodeId != id
  {
    if sites == [] then 0 else if sites[0].nodeId == id then 0 else 1 + SiteIndex(sites[1..], id)
  }

  function NodeIndex(nodes: seq<NodeView>, id: NodeId): (i: nat)
    ensures i <= |nodes| && (i < |nodes| ==> nodes[i].nodeId == id)
    ensures forall j :: 0 <= j < i ==> nodes[j].nodeId != id
  {
    if nodes == [] then 0 else if nodes[0].nodeId == id then 0 else 1 + NodeIndex(nodes[1..], id)
  }

  function NodeSubnet(sites: seq<Site>, id: NodeId): Option<Subnet> {
    var i := SiteIndex(sites, id);
    if i < |sites| then Some(sites[i].subnet) else None
  }

  function NodeIps(nodes: seq<NodeView>, id: NodeId): seq<Ip> {
    var i := NodeIndex(nodes, id);
    if i < |nodes| then nodes[i].reservedIps else []
  }

  // ----- Operations

  function SiteSubnets(sites: seq<Site>): seq<Subnet> {
    seq(|sites|, i requires 0 <= i < |sites| => sites[i].subnet)
  }

  function PointSubnets(points: seq<AccessPoint>): seq<Subnet> {
    seq(|points|, i requires 0 <= i < |points| => points[i].subnet)
  }

  function MemberSubnets(nodes: seq<NodeView>, sites: seq<Site>): seq<Subnet> {
    if nodes == [] then []
    else
      var subnet := NodeSubnet(sites, Last(nodes).nodeId);
      MemberSubnets(Front(nodes), sites) + if subnet.Some? then [subnet.value] else []
  }

  /** Values kept in first-come order, each once: the `if (!xs.includes(x)) xs.push(x)` loop. */
  function Extend(xs: seq<Subnet>, more: seq<Subnet>): seq<Subnet> {
    if more == [] then xs
    else
      var r := Extend(xs, Front(more));
      if Last(more) in r then r else r + [Last(more)]
  }

  lemma {:induction false} ExtendIs(xs: seq<Subnet>, more: seq<Subnet>)
    ensures xs <= Extend(xs, more)
    ensures forall x :: x in Extend(xs, more) <==> x in xs || x in more
    ensures Distinct(xs) ==> Distinct(Extend(xs, more))
  {
    if more != [] {
      ExtendIs(xs, Front(more));
      assert more == Front(more) + [Last(more)];
    }
  }

  lemma ExtendStep(xs: seq<Subnet>, more: seq<Subnet>, x: Subnet)
    ensures Extend(xs, more + [x]) == var r := Extend(xs, more); if x in r then r else r + [x]
  {
    assert Front(more + [x]) == more;
  }

  lemma {:induction false} ExtendIdempotent(xs: seq<Subnet>, more: seq<Subnet>)
    requires forall x :: x in more ==> x in xs
    ensures Extend(xs, more) == xs
  {
    if more != [] {
      assert more == Front(more) + [Last(more)];
      ExtendIdempotent(xs, Front(more));
      var x := Last(more);
      assert x in more && x in xs;
    }
  }

  /** The reserved list brought up to date with everything in use. */
  function Reserved(s: NetState): seq<Subnet> {
    Extend(Extend(Extend(s.reserved, MemberSubnets(s.nodes, s.sites)), PointSubnets(s.accessPoints)),
           SiteSubnets(s.sites))
  }

  /** The brought-up-to-date list: it only grows, by what is in use. */
  lemma UsedAreReserved(s: NetState)
    ensures forall x :: x in Reserved(s) <==>
                        || x in s.reserved || x in MemberSubnets(s.nodes, s.sites)
                        || x in PointSubnets(s.accessPoints) || x in SiteSubnets(s.sites)
    ensures s.reserved <= Reserved(s)
    ensures Distinct(s.reserved) ==> Distinct(Reserved(s))
  {
    var first := Extend(s.reserved, MemberSubnets(s.nodes, s.sites));
    var second := Extend(first, PointSubnets(s.accessPoints));
    ExtendIs(s.reserved, MemberSubnets(s.nodes, s.sites));
    ExtendIs(first, PointSubnets(s.accessPoints));
    ExtendIs(second, SiteSubnets(s.sites));
  }

  lemma ReservedIdempotent(s: NetState)
    ensures Reserved(Refreshed(s)) == Reserved(s)
  {
    var all := Reserved(s);
    UsedAreReserved(s);
    ExtendIdempotent(all, MemberSubnets(s.nodes, s.sites));
    ExtendIdempotent(all, PointSubnets(s.accessPoints));
    ExtendIdempotent(all, SiteSubnets(s.sites));
  }

  function Refreshed(s: NetState): NetState {
    s.(reserved := Reserved(s))
  }

  function FreeSubnet(s: NetState): Subnet {
    LeastFree(Reserved(s), 2)
  }

  function WithReserved(s: NetState, subnet: Subnet): NetState {
    s.(reserved := Reserved(s) + [subnet])
  }

  function WithNode(s: NetState, site: Site): NetState {
    s.(nodes := s.nodes + [NodeView(site.nodeId, 0, [])], sites := s.sites + [site])
  }

  function FreeIp(s: NetState, id: NodeId): Ip
    requires HasSite(s.sites, id)
  {
    LeastFree(NodeIps(s.nodes, id), Host(NodeSubnet(s.sites, id).value, 2))
  }

  function PushIp(nodes: seq<NodeView>, id: NodeId, ip: Ip): seq<NodeView> {
    var i := NodeIndex(nodes, id);
    if i < |nodes| then nodes[i := nodes[i].(reservedIps := nodes[i].reservedIps + [ip])] else nodes
  }

  lemma NotPushed(nodes: seq<NodeView>, id: NodeId, ip: Ip)
    requires forall i :: 0 <= i < |nodes| ==> nodes[i].nodeId != id
    ensures PushIp(nodes, id, ip) == nodes
  {
    var i := NodeIndex(nodes, id);
  }

  function WithoutIp(ips: seq<Ip>, ip: Ip): (r: seq<Ip>)
    ensures forall x :: x in r <==> x in ips && x != ip
    ensures Distinct(ips) ==> Distinct(r)
    ensures ip !in ips ==> r == ips
  {
    if ips == [] then []
    else
      assert ips == Front(ips) + [Last(ips)];
      DistinctFront(ips);
      var before := WithoutIp(Front(ips), ip);
      if Last(ips) == ip then before else before + [Last(ips)]
  }

  function DropIp(nodes: seq<NodeView>, id: NodeId, ip: Ip): seq<NodeView> {
    seq(|nodes|, i requires 0 <= i < |nodes| =>
      if nodes[i].nodeId == id then nodes[i].(reservedIps := WithoutIp(nodes[i].reservedIps, ip)) else nodes[i])
  }

  function OtherNodes(nodes: seq<NodeView>, id: NodeId): seq<NodeView> {
    if nodes == [] then []
    else OtherNodes(Front(nodes), id) + if Last(nodes).nodeId != id then [Last(nodes)] else []
  }

  function OtherSites(sites: seq<Site>, id: NodeId): seq<Site> {
    if sites == [] then []
    else OtherSites(Front(sites), id) + if Last(sites).nodeId != id then [Last(sites)] else []
  }

  /** The contract noted for a node, the last record winning; 0 when there is none. */
  function ContractOf(nodes: seq<NodeView>, id: NodeId): nat {
    if nodes == [] then 0
    else if Last(nodes).nodeId == id then Last(nodes).contractId
    else ContractOf(Front(nodes), id)
  }

  // ----- Effects on pools

  lemma {:induction false} SameIndex(nodes: seq<NodeView>, nodes': seq<NodeView>, x: NodeId)
    requires |nodes| == |nodes'| && forall i :: 0 <= i < |nodes| ==> nodes[i].nodeId == nodes'[i].nodeId
    ensures NodeIndex(nodes, x) == NodeIndex(nodes', x)
  {
    if nodes != [] {
      SameIndex(nodes[1..], nodes'[1..], x);
    }
  }

  lemma DropIpPool(nodes: seq<NodeView>, id: NodeId, ip: Ip, x: NodeId)
    ensures NodeIps(DropIp(nodes, id, ip), x)
            == if x == id then WithoutIp(NodeIps(nodes, id), ip) else NodeIps(nodes, x)
  {
    SameIndex(nodes, DropIp(nodes, id, ip), x);
  }

  lemma PushIpPool(nodes: seq<NodeView>, id: NodeId, ip: Ip, x: NodeId)
    ensures NodeIps(PushIp(nodes, id, ip), x)
            == NodeIps(nodes, x) + if x == id && NodeIndex(nodes, id) < |nodes| then [ip] else []
  {
    SameIndex(nodes, PushIp(nodes, id, ip), x);
  }

  // ----- Steps

  datatype Op =
    | AddNode(id: NodeId, key: PrivateKey, port: nat)
    | AddNodeAt(id: NodeId, key: PrivateKey, port: nat, subnet: Subnet)
    | AddAccess(id: NodeId, publicKey: PublicKey)
    | TakeSubnet
    | ClaimSubnet(subnet: Subnet)
    | TakeIp(id: NodeId)
    | ClaimIp(id: NodeId, ip: Ip)
    | ReleaseIp(id: NodeId, ip: Ip)
    | DeleteNode(id: NodeId)

  /** The state an operation leaves; a refused operation leaves the lists alone. */
  function Apply(s: NetState, op: Op): NetState {
    match op
    case AddNode(id, key, port) =>
      if HasSite(s.sites, id) then s
      else WithNode(WithReserved(s, FreeSubnet(s)), Site(id, FreeSubnet(s), key, port))
    case AddNodeAt(id, key, port, subnet) =>
      if HasSite(s.sites, id) then s else WithNode(s, Site(id, subnet, key, port))
    case AddAccess(id, publicKey) =>
      if !HasSite(s.sites, id) then s
      else
        var t := WithReserved(s, FreeSubnet(s));
        t.(accessPoints := t.accessPoints + [AccessPoint(FreeSubnet(s), publicKey, id)])
    case TakeSubnet => WithReserved(s, FreeSubnet(s))
    case ClaimSubnet(subnet) => if subnet in Reserved(s) then Refreshed(s) else WithReserved(s, subnet)
    case TakeIp(id) => if HasSite(s.sites, id) then s.(nodes := PushIp(s.nodes, id, FreeIp(s, id))) else s
    case ClaimIp(id, ip) =>
      var subnet := NodeSubnet(s.sites, id);
      if ip in NodeIps(s.nodes, id) || subnet.None? || !InSubnet(ip, subnet.value) then s
      else s.(nodes := PushIp(s.nodes, id, ip))
    case ReleaseIp(id, ip) => s.(nodes := DropIp(s.nodes, id, ip))
    case DeleteNode(id) => s.(nodes := OtherNodes(s.nodes, id), sites := OtherSites(s.sites, id))
  }

  function UsedSubnets(s: NetState): seq<Subnet> {
    SiteSubnets(s.sites) + PointSubnets(s.accessPoints)
  }

  /** `reserved` only grew, by subnets in use: what bringing the list up to date may do on the way. */
  predicate Grown(s: NetState, reserved: seq<Subnet>) {
    && s.reserved <= reserved
    && (Distinct(s.reserved) ==> Distinct(reserved))
    && forall x :: x in reserved ==> x in s.reserved || x in UsedSubnets(s)
  }

  predicate Steps(s: NetState, op: Op, t: NetState) {
    && t == Apply(s, op).(reserved := t.reserved)
    && Grown(Apply(s, op), t.reserved)
  }

  // ----- The invariant

  /** Both lists name the same distinct nodes; no subnet is used twice; no address is given out twice
      or outside its node's subnet. */
  predicate Consistent(s: NetState) {
    && |s.nodes| == |s.sites|
    && (forall i :: 0 <= i < |s.sites| ==> s.nodes[i].nodeId == s.sites[i].nodeId)
    && (forall i, j :: 0 <= i < j < |s.sites| ==> s.sites[i].nodeId != s.sites[j].nodeId)
    && Distinct(UsedSubnets(s))
    && Distinct(s.reserved)
    && (forall i :: 0 <= i < |s.nodes| ==> PoolOk(s.nodes[i], s.sites[i]))
  }

  predicate PoolOk(node: NodeView, site: Site) {
    && Distinct(node.reservedIps)
    && forall ip :: ip in node.reservedIps ==> InSubnet(ip, site.subnet)
  }

  /** What the caller owes: an own subnet is not in use, and a drawn address leaves the pool unexceeded. */
  predicate Legal(s: NetState, op: Op) {
    match op
    case AddNodeAt(id, _, _, subnet) => HasSite(s.sites, id) || subnet !in UsedSubnets(s)
    case TakeIp(id) => HasSite(s.sites, id) ==> PoolHasRoom(s, id)
    case _ => true
  }

  predicate PoolHasRoom(s: NetState, id: NodeId)
    requires HasSite(s.sites, id)
  {
    var subnet := NodeSubnet(s.sites, id).value;
    exists ip :: Host(subnet, 2) <= ip < Host(subnet, 256) && ip !in NodeIps(s.nodes, id)
  }

  // ----- Keeping it

  lemma FreeSubnetIsFree(s: NetState)
    ensures FreeSubnet(s) !in Reserved(s) && FreeSubnet(s) !in UsedSubnets(s) && FreeSubnet(s) >= 2
  {
    LeastFreeIs(Reserved(s), 2);
    UsedAreReserved(s);
  }

  lemma RefreshedConsistent(s: NetState)
    requires Consistent(s)
    ensures Consistent(Refreshed(s))
  {
    UsedAreReserved(s);
    assert UsedSubnets(Refreshed(s)) == UsedSubnets(s);
  }

  lemma WithReservedConsistent(s: NetState, subnet: Subnet)
    requires Consistent(s) && subnet !in Reserved(s)
    ensures Consistent(WithReserved(s, subnet))
  {
    UsedAreReserved(s);
    assert UsedSubnets(WithReserved(s, subnet)) == UsedSubnets(s);
  }

  lemma WithNodeConsistent(s: NetState, site: Site)
    requires Consistent(s) && !HasSite(s.sites, site.nodeId)
    ensures Consistent(WithNode(s, site)) <==> site.subnet !in UsedSubnets(s)
  {
    var t := WithNode(s, site);
    var before, points := SiteSubnets(s.sites), PointSubnets(s.accessPoints);
    assert UsedSubnets(t) == before + [site.subnet] + points;
    assert forall i :: 0 <= i < |s.sites| ==> s.sites[i] in s.sites;
    var used := UsedSubnets(t);
    if site.subnet in UsedSubnets(s) {
      var i :| 0 <= i < |before + points| && (before + points)[i] == site.subnet;
      assert used[|before|] == site.subnet && used[if i < |before| then i else i + 1] == site.subnet;
      assert !Distinct(used);
    } else {
      forall i, j | 0 <= i < j < |used| ensures used[i] != used[j] {
        assert i != |before| ==> used[i] == (before + points)[if i < |before| then i else i - 1];
        assert j != |before| ==> used[j] == (before + points)[if j < |before| then j else j - 1];
      }
      forall i | 0 <= i < |t.nodes| ensures PoolOk(t.nodes[i], t.sites[i]) {
        assert i < |s.nodes| ==> PoolOk(s.nodes[i], s.sites[i]);
      }
    }
  }

  lemma PushIpConsistent(s: NetState, id: NodeId, ip: Ip)
    requires Consistent(s) && HasSite(s.sites, id) && ip !in NodeIps(s.nodes, id)
    ensures Consistent(s.(nodes := PushIp(s.nodes, id, ip))) <==> InSubnet(ip, NodeSubnet(s.sites, id).value)
  {
    var i := NodeIndex(s.nodes, id);
    var k := SiteIndex(s.sites, id);
    assert i == k;
    var t := s.(nodes := PushIp(s.nodes, id, ip));
    assert UsedSubnets(t) == UsedSubnets(s);
    assert PoolOk(s.nodes[i], s.sites[i]);
    assert ip in t.nodes[i].reservedIps;
    forall j | 0 <= j < |s.nodes| && j != i ensures PoolOk(t.nodes[j], t.sites[j]) {
      assert PoolOk(s.nodes[j], s.sites[j]);
    }
  }

  lemma DropIpConsistent(s: NetState, id: NodeId, ip: Ip)
    requires Consistent(s)
    ensures Consistent(s.(nodes := DropIp(s.nodes, id, ip)))
  {
    var t := s.(nodes := DropIp(s.nodes, id, ip));
    assert UsedSubnets(t) == UsedSubnets(s);
    forall j | 0 <= j < |s.nodes| ensures PoolOk(t.nodes[j], t.sites[j]) {
      assert PoolOk(s.nodes[j], s.sites[j]);
    }
  }

  /** Filtering two parallel lists by the same ids keeps them parallel. */
  lemma {:induction false} OthersParallel(nodes: seq<NodeView>, sites: seq<Site>, id: NodeId)
    requires |nodes| == |sites| && forall i :: 0 <= i < |sites| ==> nodes[i].nodeId == sites[i].nodeId
    ensures |OtherNodes(nodes, id)| == |OtherSites(sites, id)|
    ensures forall i :: 0 <= i < |OtherSites(sites, id)| ==>
              exists k ::
                0 <= k < |sites| && OtherSites(sites, id)[i] == sites[k] && OtherNodes(nodes, id)[i] == nodes[k]
    ensures forall i :: 0 <= i < |OtherSites(sites, id)| ==> OtherSites(sites, id)[i].nodeId != id
  {
    if sites != [] {
      OthersParallel(Front(nodes), Front(sites), id);
      var others := OtherSites(sites, id);
      forall i | 0 <= i < |others|
        ensures exists k :: 0 <= k < |sites| && others[i] == sites[k] && OtherNodes(nodes, id)[i] == nodes[k]
      {
        if i < |OtherSites(Front(sites), id)| {
          var k :| 0 <= k < |Front(sites)| && OtherSites(Front(sites), id)[i] == Front(sites)[k]
                   && OtherNodes(Front(nodes), id)[i] == Front(nodes)[k];
          assert others[i] == sites[k] && OtherNodes(nodes, id)[i] == nodes[k];
        } else {
          assert others[i] == sites[|sites| - 1] && OtherNodes(nodes, id)[i] == nodes[|sites| - 1];
        }
      }
    }
  }

  lemma {:induction false} OthersDistinct(sites: seq<Site>, id: NodeId)
    requires forall i, j :: 0 <= i < j < |sites| ==>
               sites[i].nodeId != sites[j].nodeId && sites[i].subnet != sites[j].subnet
    ensures forall i, j :: 0 <= i < j < |OtherSites(sites, id)| ==>
              OtherSites(sites, id)[i].nodeId != OtherSites(sites, id)[j].nodeId
              && OtherSites(sites, id)[i].subnet != OtherSites(sites, id)[j].subnet
    ensures forall s :: s in OtherSites(sites, id) <==> s in sites && s.nodeId != id
  {
    if sites != [] {
      var front, last := Front(sites), Last(sites);
      assert sites == front + [last];
      OthersDistinct(front, id);
      assert forall s :: s in front ==> s.nodeId != last.nodeId && s.subnet != last.subnet;
    }
  }

  lemma DeletedSubnetsDistinct(s: NetState, id: NodeId)
    requires Distinct(UsedSubnets(s))
    requires forall i, j :: 0 <= i < j < |s.sites| ==> s.sites[i].nodeId != s.sites[j].nodeId
    ensures Distinct(UsedSubnets(s.(sites := OtherSites(s.sites, id))))
    ensures forall i, j :: 0 <= i < j < |OtherSites(s.sites, id)| ==>
              OtherSites(s.sites, id)[i].nodeId != OtherSites(s.sites, id)[j].nodeId
  {
    var others, points, n := OtherSites(s.sites, id), PointSubnets(s.accessPoints), |s.sites|;
    var used, used' := UsedSubnets(s), UsedSubnets(s.(sites := others));
    assert forall i :: 0 <= i < n ==> used[i] == s.sites[i].subnet;
    OthersDistinct(s.sites, id);
    forall i, j | 0 <= i < j < |used'| ensures used'[i] != used'[j] {
      if j >= |others| {
        assert used'[j] == points[j - |others|] == used[n + (j - |others|)];
        if i < |others| {
          assert others[i] in s.sites;
          var k :| 0 <= k < n && s.sites[k] == others[i];
          assert used'[i] == used[k];
        } else {
          assert used'[i] == points[i - |others|] == used[n + (i - |others|)];
        }
      } else {
        assert used'[i] == others[i].subnet && used'[j] == others[j].subnet;
      }
    }
  }

  lemma DeleteConsistent(s: NetState, id: NodeId)
    requires Consistent(s)
    ensures Consistent(Apply(s, DeleteNode(id)))
  {
    var t := Apply(s, DeleteNode(id));
    OthersParallel(s.nodes, s.sites, id);
    DeletedSubnetsDistinct(s, id);
    assert UsedSubnets(t) == UsedSubnets(s.(sites := t.sites));
    forall i | 0 <= i < |t.nodes| ensures PoolOk(t.nodes[i], t.sites[i]) && t.nodes[i].nodeId == t.sites[i].nodeId {
      var k :| 0 <= k < |s.sites| && t.sites[i] == s.sites[k] && t.nodes[i] == s.nodes[k];
      assert PoolOk(s.nodes[k], s.sites[k]);
    }
  }

  lemma AddNodeConsistent(s: NetState, id: NodeId, key: PrivateKey, port: nat)
    requires Consistent(s) && !HasSite(s.sites, id)
    ensures Consistent(Apply(s, AddNode(id, key, port)))
  {
    FreeSubnetIsFree(s);
    var t := WithReserved(s, FreeSubnet(s));
    WithReservedConsistent(s, FreeSubnet(s));
    assert UsedSubnets(t) == UsedSubnets(s);
    WithNodeConsistent(t, Site(id, FreeSubnet(s), key, port));
  }

  lemma TakeIpIff(s: NetState, id: NodeId)
    requires Consistent(s) && HasSite(s.sites, id)
    ensures Consistent(Apply(s, TakeIp(id))) <==> PoolHasRoom(s, id)
  {
    var subnet := NodeSubnet(s.sites, id).value;
    LeastFreeIs(NodeIps(s.nodes, id), Host(subnet, 2));
    LeastFreeWithin(NodeIps(s.nodes, id), Host(subnet, 2), Host(subnet, 256));
    PushIpConsistent(s, id, FreeIp(s, id));
  }

  lemma AddAccessConsistent(s: NetState, id: NodeId, publicKey: PublicKey)
    requires Consistent(s)
    ensures Consistent(Apply(s, AddAccess(id, publicKey)))
  {
    if HasSite(s.sites, id) {
      FreeSubnetIsFree(s);
      WithReservedConsistent(s, FreeSubnet(s));
      var t := Apply(s, AddAccess(id, publicKey));
      assert UsedSubnets(t) == UsedSubnets(s) + [FreeSubnet(s)];
      assert forall i :: 0 <= i < |t.nodes| ==> PoolOk(WithReserved(s, FreeSubnet(s)).nodes[i], s.sites[i]);
    }
  }

  /** Each operation keeps the invariant exactly if it is legal. */
  lemma StepKeepsIff(s: NetState, op: Op, t: NetState)
    requires Consistent(s) && Steps(s, op, t)
    ensures Consistent(t) <==> Legal(s, op)
  {
    FreeSubnetIsFree(s);
    match op {
      case AddNode(id, key, port) =>
        if !HasSite(s.sites, id) {
          AddNodeConsistent(s, id, key, port);
        }
      case AddNodeAt(id, key, port, subnet) =>
        if !HasSite(s.sites, id) {
          WithNodeConsistent(s, Site(id, subnet, key, port));
        }
      case AddAccess(id, publicKey) => AddAccessConsistent(s, id, publicKey);
      case TakeSubnet => WithReservedConsistent(s, FreeSubnet(s));
      case ClaimSubnet(subnet) =>
        RefreshedConsistent(s);
        if subnet !in Reserved(s) {
          WithReservedConsistent(s, subnet);
        }
      case TakeIp(id) =>
        if HasSite(s.sites, id) {
          TakeIpIff(s, id);
        }
      case ClaimIp(id, ip) =>
        if ip !in NodeIps(s.nodes, id) && HasSite(s.sites, id) {
          PushIpConsistent(s, id, ip);
        }
      case ReleaseIp(id, ip) => DropIpConsistent(s, id, ip);
      case DeleteNode(id) => DeleteConsistent(s, id);
    }
    ReservedStaysDistinct(s, op);
    GrownIff(Apply(s, op), t.reserved);
  }

  /** A node added on another's subnet breaks the invariant. */
  lemma SharedSubnetBreaks()
    ensures var s := NetState([NodeView(1, 0, [])], [Site(1, 2, 11, 51820)], [], []);
            var op := AddNodeAt(2, 12, 51820, 2);
            Consistent(s) && Steps(s, op, Apply(s, op)) && !Consistent(Apply(s, op))
  {
    var s := NetState([NodeView(1, 0, [])], [Site(1, 2, 11, 51820)], [], []);
    var op := AddNodeAt(2, 12, 51820, 2);
    assert UsedSubnets(s) == [2] && 2 in UsedSubnets(s);
    StepKeepsIff(s, op, Apply(s, op));
  }

  lemma ReservedStaysDistinct(s: NetState, op: Op)
    requires Distinct(s.reserved)
    ensures Distinct(Apply(s, op).reserved)
  {
    FreeSubnetIsFree(s);
    UsedAreReserved(s);
  }

  lemma GrownIff(s: NetState, reserved: seq<Subnet>)
    requires Distinct(s.reserved) && Grown(s, reserved)
    ensures Consistent(s.(reserved := reserved)) <==> Consistent(s)
  {
    assert UsedSubnets(s.(reserved := reserved)) == UsedSubnets(s);
  }

  lemma {:induction false} MembersAreSites(nodes: seq<NodeView>, sites: seq<Site>)
    ensures forall x :: x in MemberSubnets(nodes, sites) ==> x in SiteSubnets(sites)
  {
    if nodes != [] {
      MembersAreSites(Front(nodes), sites);
      var i := SiteIndex(sites, Last(nodes).nodeId);
      assert i < |sites| ==> SiteSubnets(sites)[i] == sites[i].subnet;
    }
  }

  lemma RefreshedIsGrown(s: NetState)
    ensures Grown(s, Reserved(s)) && Grown(s, s.reserved)
  {
    MembersAreSites(s.nodes, s.sites);
    UsedAreReserved(s);
  }

  ghost predicate Run(states: seq<NetState>, ops: seq<Op>) {
    && |states| == |ops| + 1
    && forall i :: 0 <= i < |ops| ==> Steps(states[i], ops[i], states[i + 1])
  }

  /** Whole runs: the invariant holds at every point up to the first illegal operation, and breaks there. */
  lemma {:induction false} RunKeepsIff(states: seq<NetState>, ops: seq<Op>, n: nat)
    requires Run(states, ops) && Consistent(states[0]) && n <= |ops|
    ensures (forall i :: 0 <= i <= n ==> Consistent(states[i])) <==>
            (forall i :: 0 <= i < n ==> Legal(states[i], ops[i]))
  {
    if n > 0 {
      RunKeepsIff(states, ops, n - 1);
      if Consistent(states[n - 1]) {
        StepKeepsIff(states[n - 1], ops[n - 1], states[n - 1 + 1]);
      }
    }
  }

  /** Addresses are distinct across the whole network, not only within a node. */
  lemma AddressesGloballyDistinct(s: NetState, i: nat, j: nat, ip: Ip)
    requires Consistent(s) && i < |s.nodes| && j < |s.nodes|
    requires ip in s.nodes[i].reservedIps && ip in s.nodes[j].reservedIps
    ensures i == j
  {
    assert PoolOk(s.nodes[i], s.sites[i]) && PoolOk(s.nodes[j], s.sites[j]);
    assert UsedSubnets(s)[i] == s.sites[i].subnet && UsedSubnets(s)[j] == s.sites[j].subnet;
    assert s.sites[i].subnet == s.sites[j].subnet;
  }

  /** Up to 253 entries, a pool has room and a free subnet is inside the /16. */
  lemma PoolsOf253(s: NetState)
    ensures |Reserved(s)| <= 253 ==> 2 <= FreeSubnet(s) < 256
    ensures forall id | HasSite(s.sites, id) :: |NodeIps(s.nodes, id)| <= 253 ==> PoolHasRoom(s, id)
  {
    LeastFreeIs(Reserved(s), 2);
    LeastFreeBound(Reserved(s), 2);
    forall id | HasSite(s.sites, id) ensures |NodeIps(s.nodes, id)| <= 253 ==> PoolHasRoom(s, id) {
      var from := Host(NodeSubnet(s.sites, id).value, 2);
      LeastFreeIs(NodeIps(s.nodes, id), from);
      LeastFreeBound(NodeIps(s.nodes, id), from);
      var ip := LeastFree(NodeIps(s.nodes, id), from);
      assert ip !in NodeIps(s.nodes, id);
    }
  }

  lemma NoPool(s: NetState, id: NodeId)
    requires Consistent(s) && !HasSite(s.sites, id)
    ensures NodeIps(s.nodes, id) == []
  {
    var i := NodeIndex(s.nodes, id);
    assert forall k :: 0 <= k < |s.sites| ==> s.sites[k] in s.sites;
  }
}
