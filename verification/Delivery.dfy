/** Exact cover, symmetry and delivery of the generated overlay. */
module Delivery {
  import opened Lists
  import opened Overlay
  import opened Routing

  // ----- Where a destination enters the mesh of visible nodes

  ghost predicate EntersAt(plan: Plan, dst: Prefix, id: NodeId) {
    || (exists s :: s in plan.sites && s.subnet == dst.subnet
                    && id == if s.nodeId in plan.choice then plan.choice[s.nodeId] else s.nodeId)
    || (exists a :: a in plan.accessPoints && a.subnet == dst.subnet && id == a.nodeId)
  }

  /** A destination is either a node in the mesh or a point hanging off one, never both. */
  lemma EntryKinds(plan: Plan, dst: Prefix, id: NodeId)
    requires WellFormed(plan)
    ensures EntersAt(plan, dst, id) <==>
            || (exists s :: s in plan.sites && s.subnet == dst.subnet && s.nodeId !in plan.choice && id == s.nodeId)
            || (exists a :: a in Points(plan) && a.subnet == dst.subnet && id == a.nodeId)
  {
    if s :| s in plan.sites && s.subnet == dst.subnet && s.nodeId in plan.choice {
      HiddenPointListed(plan, s);
      assert HiddenPoint(s, plan.choice[s.nodeId]) in Points(plan);
    }
    forall a | a in Points(plan) && a.subnet == dst.subnet ensures EntersAt(plan, dst, a.nodeId) {
      InHiddenPoints(plan.sites, plan.choice, a);
    }
  }

  lemma EntryIsUnique(plan: Plan, dst: Prefix, id: NodeId, id': NodeId)
    requires WellFormed(plan) && EntersAt(plan, dst, id) && EntersAt(plan, dst, id')
    ensures id == id'
  {
  }

  lemma EntryExists(plan: Plan, dst: Prefix) returns (gate: Site)
    requires WellFormed(plan) && Anchored(plan) && Destination(plan, dst)
    ensures gate in plan.sites && gate.nodeId !in plan.choice && EntersAt(plan, dst, gate.nodeId)
  {
    if s :| s in plan.sites && s.subnet == dst.subnet {
      if s.nodeId in plan.choice {
        gate :| gate in plan.sites && gate.nodeId == plan.choice[s.nodeId];
      } else {
        gate := s;
      }
    } else {
      var a :| a in plan.accessPoints && a.subnet == dst.subnet;
      gate :| gate in plan.sites && gate.nodeId == a.nodeId;
    }
  }

  // ----- One table

  /** From a node in the mesh, a destination entering elsewhere is carried by the peer for its entry node only. */
  lemma CarriedAcross(plan: Plan, own: Site, dst: Prefix, gate: Site, peer: Peer)
    requires WellFormed(plan) && own in plan.sites && own.nodeId !in plan.choice
    requires gate in plan.sites && gate.nodeId !in plan.choice && EntersAt(plan, dst, gate.nodeId) && gate != own
    ensures Meshes(plan, own, gate)
    ensures peer in Table(plan, own) && dst in peer.allowedIps <==> peer == MeshPeer(plan, own, gate)
  {
    OnlySite(plan, own, gate);
    HiddenMeansNoEndpoint(plan, gate);
    EntryKinds(plan, dst, gate.nodeId);
    InTable(plan, own, peer);
    InAllowedIps(plan, own, gate, dst);
    if peer in Table(plan, own) && dst in peer.allowedIps {
      if a :| a in Points(plan) && a.nodeId == own.nodeId && peer == PointPeer(a) {
        assert a.subnet == dst.subnet;
        EntryKinds(plan, dst, own.nodeId);
        EntryIsUnique(plan, dst, own.nodeId, gate.nodeId);
        assert false;
      } else {
        var other :| other in plan.sites && Meshes(plan, own, other) && peer == MeshPeer(plan, own, other);
        InAllowedIps(plan, own, other, dst);
        HiddenMeansNoEndpoint(plan, other);
        EntryKinds(plan, dst, other.nodeId);
        EntryIsUnique(plan, dst, other.nodeId, gate.nodeId);
      }
    }
  }

  /** A destination hanging off the node itself is carried by that point's own peer only. */
  lemma CarriedLocally(plan: Plan, own: Site, dst: Prefix, point: AccessPoint, peer: Peer)
    requires WellFormed(plan) && own in plan.sites && own.nodeId !in plan.choice
    requires point in Points(plan) && point.subnet == dst.subnet && point.nodeId == own.nodeId
    ensures peer in Table(plan, own) && dst in peer.allowedIps <==> peer == PointPeer(point)
  {
    InTable(plan, own, peer);
    if peer in Table(plan, own) && dst in peer.allowedIps {
      if a :| a in Points(plan) && a.nodeId == own.nodeId && peer == PointPeer(a) {
        assert a.subnet == dst.subnet;
        PointIsUnique(plan, a, point);
      } else {
        var other :| other in plan.sites && Meshes(plan, own, other) && peer == MeshPeer(plan, own, other);
        InAllowedIps(plan, own, other, dst);
        HiddenMeansNoEndpoint(plan, other);
        EntryKinds(plan, dst, other.nodeId);
        EntryKinds(plan, dst, own.nodeId);
        EntryIsUnique(plan, dst, other.nodeId, own.nodeId);
        assert false;
      }
    }
  }

  /** Nothing a node in the mesh sends out is its own. */
  lemma OwnSubnetNotCarried(plan: Plan, own: Site, dst: Prefix, peer: Peer)
    requires WellFormed(plan) && own in plan.sites && own.nodeId !in plan.choice
    requires dst.subnet == own.subnet && peer in Table(plan, own)
    ensures dst !in peer.allowedIps
  {
    InTable(plan, own, peer);
    if dst in peer.allowedIps {
      EntryKinds(plan, dst, own.nodeId);
      if a :| a in Points(plan) && a.nodeId == own.nodeId && peer == PointPeer(a) {
        assert a.subnet == dst.subnet;
        PointOfSite(plan, a, own);
        assert false;
      } else {
        var other :| other in plan.sites && Meshes(plan, own, other) && peer == MeshPeer(plan, own, other);
        InAllowedIps(plan, own, other, dst);
        HiddenMeansNoEndpoint(plan, other);
        EntryKinds(plan, dst, other.nodeId);
        EntryIsUnique(plan, dst, other.nodeId, own.nodeId);
        assert false;
      }
    }
  }

  /** Whatever a node in the mesh sends out belongs to somebody. */
  lemma CarriedIsDestination(plan: Plan, own: Site, dst: Prefix, peer: Peer)
    requires WellFormed(plan) && own in plan.sites && own.nodeId !in plan.choice
    requires peer in Table(plan, own) && dst in peer.allowedIps
    ensures Destination(plan, dst)
  {
    InTable(plan, own, peer);
    if a :| a in Points(plan) && a.nodeId == own.nodeId && peer == PointPeer(a) {
      InHiddenPoints(plan.sites, plan.choice, a);
      assert a.subnet == dst.subnet;
    } else {
      var other :| other in plan.sites && Meshes(plan, own, other) && peer == MeshPeer(plan, own, other);
      InAllowedIps(plan, own, other, dst);
      if a :| a in Points(plan) && a.subnet == dst.subnet {
        InHiddenPoints(plan.sites, plan.choice, a);
      }
    }
  }

  /** The peer that carries `dst` out of a node in the mesh. */
  lemma Carrier(plan: Plan, own: Site, dst: Prefix) returns (peer: Peer)
    requires WellFormed(plan) && Anchored(plan) && own in plan.sites && own.nodeId !in plan.choice
    requires Destination(plan, dst) && dst.subnet != own.subnet
    ensures peer in Table(plan, own) && dst in peer.allowedIps
    ensures forall other :: other in Table(plan, own) && dst in other.allowedIps ==> other == peer
  {
    var gate := EntryExists(plan, dst);
    if gate != own {
      OnlySite(plan, own, gate);
      HiddenMeansNoEndpoint(plan, gate);
      peer := MeshPeer(plan, own, gate);
      CarriedAcross(plan, own, dst, gate, peer);
      forall other ensures other in Table(plan, own) && dst in other.allowedIps ==> other == peer {
        CarriedAcross(plan, own, dst, gate, other);
      }
    } else {
      EntryKinds(plan, dst, own.nodeId);
      var point :| point in Points(plan) && point.subnet == dst.subnet && own.nodeId == point.nodeId;
      peer := PointPeer(point);
      CarriedLocally(plan, own, dst, point, peer);
      forall other ensures other in Table(plan, own) && dst in other.allowedIps ==> other == peer {
        CarriedLocally(plan, own, dst, point, other);
      }
    }
  }

  lemma PeerRoutesDistinct(plan: Plan, own: Site, peer: Peer)
    requires WellFormed(plan) && peer in Table(plan, own)
    ensures Distinct(peer.allowedIps)
  {
    InTable(plan, own, peer);
    if other :| other in plan.sites && Meshes(plan, own, other) && peer == MeshPeer(plan, own, other) {
      AllowedIpsDistinct(plan, own, other);
    }
  }

  /** The peers of a node in the mesh partition the routes of everybody else: each in exactly one
      peer, listed once there, its own in none. */
  lemma ExactCover(plan: Plan, own: Site, dst: Prefix)
    requires WellFormed(plan) && Anchored(plan) && own in plan.sites && own.nodeId !in plan.choice
    ensures (exists i :: 0 <= i < |Table(plan, own)| && dst in Table(plan, own)[i].allowedIps)
            <==> Destination(plan, dst) && dst.subnet != own.subnet
    ensures forall i, j | 0 <= i < |Table(plan, own)| && 0 <= j < |Table(plan, own)| ::
              dst in Table(plan, own)[i].allowedIps && dst in Table(plan, own)[j].allowedIps ==> i == j
    ensures forall i :: 0 <= i < |Table(plan, own)| ==> Distinct(Table(plan, own)[i].allowedIps)
  {
    var table := Table(plan, own);
    if i :| 0 <= i < |table| && dst in table[i].allowedIps {
      CarriedIsDestination(plan, own, dst, table[i]);
      if dst.subnet == own.subnet {
        OwnSubnetNotCarried(plan, own, dst, table[i]);
        assert false;
      }
    }
    if Destination(plan, dst) && dst.subnet != own.subnet {
      var peer := Carrier(plan, own, dst);
      TableKeysDistinct(plan, own);
      forall i, j | 0 <= i < |table| && 0 <= j < |table|
        && dst in table[i].allowedIps && dst in table[j].allowedIps
        ensures i == j
      {
        assert table[i] == peer && table[j] == peer;
      }
    }
    forall i | 0 <= i < |table| ensures Distinct(table[i].allowedIps) {
      PeerRoutesDistinct(plan, own, table[i]);
    }
  }

  ghost predicate Carries(plan: Plan, own: Site, dst: Prefix) {
    exists peer :: peer in Table(plan, own) && dst in peer.allowedIps
  }

  /** Every node in the mesh has a peer for whatever belongs to somebody else. */
  ghost predicate CoversAll(plan: Plan) {
    forall own, dst | own in plan.sites && own.nodeId !in plan.choice && Destination(plan, dst)
                     && dst.subnet != own.subnet ::
      Carries(plan, own, dst)
  }

  /** A point is only carried if it hangs off a member that is not hidden. */
  lemma CarriedHasMember(plan: Plan, own: Site, a: AccessPoint)
    requires WellFormed(plan) && own in plan.sites && own.nodeId !in plan.choice
    requires a in Points(plan) && Carries(plan, own, Lan(a.subnet))
    ensures HasSite(plan.sites, a.nodeId) && a.nodeId !in plan.choice
  {
    var dst := Lan(a.subnet);
    var peer :| peer in Table(plan, own) && dst in peer.allowedIps;
    InTable(plan, own, peer);
    if p :| p in Points(plan) && p.nodeId == own.nodeId && peer == PointPeer(p) {
      PointIsUnique(plan, p, a);
    } else {
      var other :| other in plan.sites && Meshes(plan, own, other) && peer == MeshPeer(plan, own, other);
      InAllowedIps(plan, own, other, dst);
      HiddenMeansNoEndpoint(plan, other);
      OnlySite(plan, own, other);
      if p :| p in Points(plan) && p.nodeId == other.nodeId && p.subnet == dst.subnet {
        PointIsUnique(plan, p, a);
      } else {
        PointOfSite(plan, a, other);
        assert false;
      }
    }
  }

  /** With any node in the mesh at all, every one of them covers everybody else exactly if all access nodes chosen
      and all access points are on visible members. */
  lemma CoverIff(plan: Plan, own: Site)
    requires WellFormed(plan) && own in plan.sites && own.nodeId !in plan.choice
    ensures CoversAll(plan) <==> Anchored(plan)
  {
    if Anchored(plan) {
      forall from, dst | from in plan.sites && from.nodeId !in plan.choice && Destination(plan, dst)
                         && dst.subnet != from.subnet
        ensures Carries(plan, from, dst)
      {
        var peer := Carrier(plan, from, dst);
      }
    }
    if CoversAll(plan) {
      forall h | h in plan.choice
        ensures HasSite(plan.sites, plan.choice[h]) && Visible(plan.endpoints, plan.choice[h])
      {
        var s :| s in plan.sites && s.nodeId == h;
        HiddenPointListed(plan, s);
        CarriedHasMember(plan, own, HiddenPoint(s, plan.choice[h]));
        OnlySite(plan, own, s);
        var gate :| gate in plan.sites && gate.nodeId == plan.choice[h];
        HiddenMeansNoEndpoint(plan, gate);
      }
      forall a | a in plan.accessPoints ensures HasSite(plan.sites, a.nodeId) && a.nodeId !in plan.choice {
        assert Destination(plan, Lan(a.subnet)) && a in Points(plan);
        CarriedHasMember(plan, own, a);
      }
    }
  }

  // ----- Hidden nodes

  lemma HiddenPeer(plan: Plan, own: Site, gate: Site)
    requires WellFormed(plan) && Anchored(plan) && own in plan.sites && own.nodeId in plan.choice
    requires gate in plan.sites && gate.nodeId == plan.choice[own.nodeId]
    ensures Meshes(plan, own, gate)
    ensures forall peer :: peer in Table(plan, own) <==> peer == MeshPeer(plan, own, gate)
  {
    HiddenMeansNoEndpoint(plan, own);
    assert gate != own && Meshes(plan, own, gate);
    InTable(plan, own, MeshPeer(plan, own, gate));
    forall peer | peer in Table(plan, own) ensures peer == MeshPeer(plan, own, gate) {
      InTable(plan, own, peer);
      if a :| a in Points(plan) && a.nodeId == own.nodeId && peer == PointPeer(a) {
        InHiddenPoints(plan.sites, plan.choice, a);
        assert false;
      }
    }
  }

  lemma OnlyEntry(table: seq<Peer>, peer: Peer)
    requires Distinct(table) && forall p :: p in table <==> p == peer
    ensures table == [peer]
  {
    DistinctCardinality(table);
    assert (set p | p in table) == {peer};
  }

  /** A hidden node keeps one tunnel, to its access node, and sends through it every reserved subnet,
      its own included: its own point is one of those hanging off the access node. */
  lemma HiddenTable(plan: Plan, own: Site, gate: Site)
    requires WellFormed(plan) && Anchored(plan) && own in plan.sites && own.nodeId in plan.choice
    requires gate in plan.sites && gate.nodeId == plan.choice[own.nodeId]
    ensures Meshes(plan, own, gate) && Table(plan, own) == [MeshPeer(plan, own, gate)]
    ensures Distinct(AllowedIps(plan, own, gate))
    ensures forall dst :: dst in AllowedIps(plan, own, gate) <==> dst.subnet in plan.reserved
  {
    HiddenPeer(plan, own, gate);
    TableKeysDistinct(plan, own);
    OnlyEntry(Table(plan, own), MeshPeer(plan, own, gate));
    AllowedIpsDistinct(plan, own, gate);
    HiddenPointListed(plan, own);
    forall dst ensures dst in AllowedIps(plan, own, gate) <==> dst.subnet in plan.reserved {
      InAllowedIps(plan, own, gate, dst);
      if a :| a in Points(plan) && a.subnet == dst.subnet {
        InHiddenPoints(plan.sites, plan.choice, a);
      }
    }
  }

  // ----- Symmetry

  ghost predicate HasPeer(plan: Plan, s: Site, t: Site) {
    exists peer :: peer in Table(plan, s) && peer.publicKey == PublicKey(t.privateKey)
  }

  ghost predicate Symmetric(plan: Plan) {
    forall s, t | s in plan.sites && t in plan.sites && s != t :: HasPeer(plan, s, t) <==> HasPeer(plan, t, s)
  }

  lemma PeerOfSite(plan: Plan, s: Site, t: Site)
    requires WellFormed(plan) && s in plan.sites && t in plan.sites && s != t
    ensures HasPeer(plan, s, t) <==>
            || Meshes(plan, s, t)
            || (t.nodeId in plan.choice && plan.choice[t.nodeId] == s.nodeId)
  {
    if peer :| peer in Table(plan, s) && peer.publicKey == PublicKey(t.privateKey) {
      InTable(plan, s, peer);
      if a :| a in Points(plan) && a.nodeId == s.nodeId && peer == PointPeer(a) {
        PointOfSite(plan, a, t);
      }
    }
    if Meshes(plan, s, t) {
      InTable(plan, s, MeshPeer(plan, s, t));
      assert MeshPeer(plan, s, t).publicKey == PublicKey(t.privateKey);
    }
    if t.nodeId in plan.choice && plan.choice[t.nodeId] == s.nodeId {
      HiddenPointListed(plan, t);
      var a := HiddenPoint(t, s.nodeId);
      InTable(plan, s, PointPeer(a));
      assert PointPeer(a).publicKey == PublicKey(t.privateKey);
    }
  }

  /** Nodes know each other mutually exactly if two hidden nodes only ever choose each other mutually. */
  lemma SymmetryIff(plan: Plan)
    requires WellFormed(plan)
    ensures Symmetric(plan) <==>
            forall s, t | s in plan.sites && t in plan.sites && s.nodeId in plan.choice && t.nodeId in plan.choice ::
              plan.choice[s.nodeId] == t.nodeId ==> plan.choice[t.nodeId] == s.nodeId
  {
    forall s, t | s in plan.sites && t in plan.sites && s != t
      ensures HasPeer(plan, s, t) <==>
              Meshes(plan, s, t) || (t.nodeId in plan.choice && plan.choice[t.nodeId] == s.nodeId)
      ensures s.nodeId in plan.choice <==> !Visible(plan.endpoints, s.nodeId)
    {
      PeerOfSite(plan, s, t);
      OnlySite(plan, s, t);
      HiddenMeansNoEndpoint(plan, s);
    }
  }

  lemma HiddenOf(sites: seq<Site>, endpoints: map<NodeId, string>, ids: set<NodeId>)
    requires |sites| > 1 && forall s :: s in sites ==> (s.nodeId in ids <==> !Visible(endpoints, s.nodeId))
    requires forall id :: id in ids ==> HasSite(sites, id)
    ensures HiddenIds(sites, endpoints) == ids
  {
    forall id ensures id in HiddenIds(sites, endpoints) <==> id in ids {
    }
  }

  /** A hidden node that dials through another hidden one knows less of it than the other way round. */
  lemma HiddenChainIsAsymmetric()
    ensures var first, second, gate := Site(1, 2, 11, 51820), Site(2, 3, 12, 51820), Site(3, 4, 13, 51820);
            var plan := Plan([first, second, gate], [], map[3 := "10.0.0.3"], map[1 := 2, 2 := 3], [2, 3, 4]);
            WellFormed(plan) && !Symmetric(plan)
  {
    var first, second, gate := Site(1, 2, 11, 51820), Site(2, 3, 12, 51820), Site(3, 4, 13, 51820);
    var plan := Plan([first, second, gate], [], map[3 := "10.0.0.3"], map[1 := 2, 2 := 3], [2, 3, 4]);
    assert first in plan.sites && second in plan.sites && gate in plan.sites;
    HiddenOf(plan.sites, plan.endpoints, {1, 2});
    SymmetryIff(plan);
  }

  // ----- Delivery

  lemma CrossHop(plan: Plan, own: Site, dst: Prefix, gate: Site)
    requires WellFormed(plan) && own in plan.sites && own.nodeId !in plan.choice
    requires gate in plan.sites && gate.nodeId !in plan.choice && EntersAt(plan, dst, gate.nodeId) && gate != own
    ensures Hop(plan, own, dst, AtNode(gate))
  {
    OnlySite(plan, own, gate);
    HiddenMeansNoEndpoint(plan, gate);
    CarriedAcross(plan, own, dst, gate, MeshPeer(plan, own, gate));
    assert DialledAs(plan, MeshPeer(plan, own, gate).endpoint, AtNode(gate));
  }

  /** The last step: from the entry node to what hangs off it. */
  lemma LocalHop(plan: Plan, gate: Site, dst: Prefix) returns (next: Stop)
    requires WellFormed(plan) && Anchored(plan) && gate in plan.sites && gate.nodeId !in plan.choice
    requires EntersAt(plan, dst, gate.nodeId) && !Owns(AtNode(gate), dst)
    ensures Hop(plan, gate, dst, next) && Owns(next, dst)
  {
    EntryKinds(plan, dst, gate.nodeId);
    var a :| a in Points(plan) && a.subnet == dst.subnet && gate.nodeId == a.nodeId;
    CarriedLocally(plan, gate, dst, a, PointPeer(a));
    next := PointStop(plan, gate, a);
    assert PointPeer(a).publicKey == KeyOf(next);
  }

  /** What a node's table has under another node's key: a tunnel to its subnet, dialled where that node listens, or,
      for a hidden node that drew this one, awaited. */
  lemma TunnelsLead(plan: Plan, own: Site, peer: Peer, other: Site)
    requires WellFormed(plan) && own in plan.sites && other in plan.sites && own != other
    requires peer in Table(plan, own) && peer.publicKey == PublicKey(other.privateKey)
    ensures peer.subnet == other.subnet
    ensures Lan(other.subnet) in peer.allowedIps && Wg(other.subnet) in peer.allowedIps
    ensures if Visible(plan.endpoints, other.nodeId) then LeadsTo(plan.endpoints, peer.endpoint, other)
            else peer.endpoint == Unset && other.nodeId in plan.choice && plan.choice[other.nodeId] == own.nodeId
  {
    OnlySite(plan, own, other);
    HiddenMeansNoEndpoint(plan, other);
    InTable(plan, own, peer);
    if a :| a in Points(plan) && a.nodeId == own.nodeId && peer == PointPeer(a) {
      assert a.publicKey == PublicKey(other.privateKey);
      PointOfSite(plan, a, other);
    } else {
      var site :| site in plan.sites && Meshes(plan, own, site) && peer == MeshPeer(plan, own, site);
      assert site == other;
      InAllowedIps(plan, own, other, Lan(other.subnet));
      InAllowedIps(plan, own, other, Wg(other.subnet));
    }
  }

  /** Somebody's entry, or that of a device with access through the node itself. */
  lemma EntryIsOfMember(plan: Plan, own: Site, peer: Peer)
    requires WellFormed(plan) && peer in Table(plan, own)
    ensures (exists s :: s in plan.sites && peer.publicKey == PublicKey(s.privateKey))
            || (exists a :: a in plan.accessPoints && a.nodeId == own.nodeId && peer == PointPeer(a))
  {
    InTable(plan, own, peer);
    if a :| a in Points(plan) && a.nodeId == own.nodeId && peer == PointPeer(a) {
      InHiddenPoints(plan.sites, plan.choice, a);
      assert peer.publicKey == a.publicKey;
    }
  }

  /** The entries under no member's key are those of the devices that have access through the node itself. */
  lemma DeviceEntries(plan: Plan, own: Site, peer: Peer)
    requires WellFormed(plan) && own in plan.sites
    ensures peer in Table(plan, own) && (forall s :: s in plan.sites ==> peer.publicKey != PublicKey(s.privateKey))
            <==> exists a :: a in plan.accessPoints && a.nodeId == own.nodeId
                             && peer == Peer(a.subnet, a.publicKey, [Lan(a.subnet), Wg(a.subnet)], Unset)
  {
    if peer in Table(plan, own) {
      EntryIsOfMember(plan, own, peer);
    }
    if a :| a in plan.accessPoints && a.nodeId == own.nodeId
            && peer == Peer(a.subnet, a.publicKey, [Lan(a.subnet), Wg(a.subnet)], Unset) {
      assert a in Points(plan) && peer == PointPeer(a);
      InTable(plan, own, peer);
    }
  }

  /** A node has an entry for every other visible one, unless it is hidden: then for its access node only. */
  lemma TunnelThere(plan: Plan, own: Site, other: Site)
    requires WellFormed(plan) && own in plan.sites && other in plan.sites && own != other
    ensures (exists peer :: peer in Table(plan, own) && LeadsTo(plan.endpoints, peer.endpoint, other)
                            && peer.publicKey == PublicKey(other.privateKey))
            <==> Visible(plan.endpoints, other.nodeId)
                 && (own.nodeId in plan.choice ==> plan.choice[own.nodeId] == other.nodeId)
  {
    if Meshes(plan, own, other) {
      var peer := MeshPeer(plan, own, other);
      InTable(plan, own, peer);
      assert peer.publicKey == PublicKey(other.privateKey) && LeadsTo(plan.endpoints, peer.endpoint, other);
    }
    if peer :| peer in Table(plan, own) && LeadsTo(plan.endpoints, peer.endpoint, other)
               && peer.publicKey == PublicKey(other.privateKey) {
      InTable(plan, own, peer);
      if a :| a in Points(plan) && a.nodeId == own.nodeId && peer == PointPeer(a) {
        assert false;
      } else {
        var site :| site in plan.sites && Meshes(plan, own, site) && peer == MeshPeer(plan, own, site);
        assert site == other;
      }
    }
  }

  /** What a point hanging off an entry node stands for: a device, or a hidden node that dials its access node. */
  lemma PointStop(plan: Plan, gate: Site, a: AccessPoint) returns (stop: Stop)
    requires WellFormed(plan) && Anchored(plan) && gate in plan.sites && gate.nodeId !in plan.choice
    requires a in Points(plan) && a.nodeId == gate.nodeId
    ensures Member(plan, stop) && Dials(plan, stop, gate) && KeyOf(stop) == a.publicKey
    ensures Owns(stop, Lan(a.subnet))
  {
    InHiddenPoints(plan.sites, plan.choice, a);
    if a in plan.accessPoints {
      return AtDevice(a);
    }
    var s :| s in plan.sites && s.nodeId in plan.choice && a == HiddenPoint(s, plan.choice[s.nodeId]);
    HiddenTable(plan, s, gate);
    assert MeshPeer(plan, s, gate) in Table(plan, s);
    stop := AtNode(s);
  }

  lemma RouteFrom(plan: Plan, first: Site, rest: seq<Stop>, dst: Prefix)
    requires Route(plan, rest, dst) && Hop(plan, first, dst, rest[0])
    requires !Owns(AtNode(first), dst) && AtNode(first) !in rest
    ensures Route(plan, [AtNode(first)] + rest, dst)
  {
    var path := [AtNode(first)] + rest;
    assert Last(path) == Last(rest);
    forall i | 0 <= i < |path| - 1
      ensures path[i].AtNode? && !Owns(path[i], dst) && Hop(plan, path[i].site, dst, path[i + 1])
    {
      if i > 0 {
        assert path[i] == rest[i - 1] && path[i + 1] == rest[i];
      }
    }
  }

  lemma RouteFromGate(plan: Plan, gate: Site, dst: Prefix) returns (path: seq<Stop>)
    requires WellFormed(plan) && Anchored(plan) && gate in plan.sites && gate.nodeId !in plan.choice
    requires EntersAt(plan, dst, gate.nodeId)
    ensures Route(plan, path, dst) && path[0] == AtNode(gate) && |path| <= 2
    ensures forall i :: 0 < i < |path| ==> Owns(path[i], dst)
  {
    if Owns(AtNode(gate), dst) {
      return [AtNode(gate)];
    }
    var next := LocalHop(plan, gate, dst);
    path := [AtNode(gate), next];
    assert Last(path) == next;
  }

  lemma MeshRoute(plan: Plan, from: Site, dst: Prefix) returns (path: seq<Stop>)
    requires WellFormed(plan) && Anchored(plan) && Destination(plan, dst)
    requires from in plan.sites && from.nodeId !in plan.choice
    ensures Route(plan, path, dst) && path[0] == AtNode(from) && |path| <= 3
    ensures forall i :: 0 <= i < |path| ==>
              Owns(path[i], dst) || (path[i].AtNode? && path[i].site.nodeId !in plan.choice)
  {
    if Owns(AtNode(from), dst) {
      return [AtNode(from)];
    }
    var gate := EntryExists(plan, dst);
    path := RouteFromGate(plan, gate, dst);
    if gate != from {
      CrossHop(plan, from, dst, gate);
      RouteFrom(plan, from, path, dst);
      path := [AtNode(from)] + path;
    }
  }

  lemma RouteTail(plan: Plan, path: seq<Stop>, dst: Prefix)
    requires Route(plan, path, dst) && |path| > 1
    ensures Route(plan, path[1..], dst)
  {
    var tail := path[1..];
    assert Last(tail) == Last(path);
    forall i | 0 <= i < |tail| - 1
      ensures tail[i].AtNode? && !Owns(tail[i], dst) && Hop(plan, tail[i].site, dst, tail[i + 1])
    {
      assert tail[i] == path[i + 1] && tail[i + 1] == path[i + 2];
    }
  }

  lemma FindRoute(plan: Plan, from: Site, dst: Prefix) returns (path: seq<Stop>)
    requires WellFormed(plan) && Anchored(plan) && Destination(plan, dst) && from in plan.sites
    ensures Route(plan, path, dst) && path[0] == AtNode(from) && |path| <= 4
  {
    if from.nodeId !in plan.choice || Owns(AtNode(from), dst) {
      if Owns(AtNode(from), dst) {
        path := [AtNode(from)];
      } else {
        path := MeshRoute(plan, from, dst);
      }
    } else {
      var gate :| gate in plan.sites && gate.nodeId == plan.choice[from.nodeId];
      HiddenTable(plan, from, gate);
      HiddenMeansNoEndpoint(plan, gate);
      var rest := MeshRoute(plan, gate, dst);
      var peer := MeshPeer(plan, from, gate);
      assert peer in Table(plan, from) && dst in peer.allowedIps && LeadsTo(plan.endpoints, peer.endpoint, gate);
      assert Hop(plan, from, dst, rest[0]);
      RouteFrom(plan, from, rest, dst);
      path := [AtNode(from)] + rest;
    }
  }

  /** A hidden node whose access node is missing or hidden itself gets nothing out to other nodes. */
  lemma StuckHidden(plan: Plan, own: Site, other: Site, next: Stop)
    requires WellFormed(plan) && own in plan.sites && other in plan.sites && own != other
    requires own.nodeId in plan.choice
    requires !(HasSite(plan.sites, plan.choice[own.nodeId]) && Visible(plan.endpoints, plan.choice[own.nodeId]))
    ensures !Hop(plan, own, Lan(other.subnet), next)
  {
    var dst := Lan(other.subnet);
    if Hop(plan, own, dst, next) {
      var peer :| peer in Table(plan, own) && dst in peer.allowedIps && peer.publicKey == KeyOf(next)
                  && (DialledAs(plan, peer.endpoint, next) || Dials(plan, next, own));
      InTable(plan, own, peer);
      var a :| a in Points(plan) && a.nodeId == own.nodeId && peer == PointPeer(a);
      assert peer.publicKey == a.publicKey && a.subnet == other.subnet;
      PointOfSite(plan, a, other);
      assert next == AtNode(other);
      var back :| back in Table(plan, other) && back.publicKey == PublicKey(own.privateKey)
                  && LeadsTo(plan.endpoints, back.endpoint, own);
      InTable(plan, other, back);
      if b :| b in Points(plan) && back == PointPeer(b) {
        assert false;
      } else {
        var site :| site in plan.sites && Meshes(plan, other, site) && back == MeshPeer(plan, other, site);
        assert site == own;
        HiddenMeansNoEndpoint(plan, own);
        assert false;
      }
    }
  }

  /** Nothing reaches an access point on a missing or hidden node from anywhere else in the mesh. */
  lemma StuckBeforePoint(plan: Plan, own: Site, point: AccessPoint, next: Stop)
    requires WellFormed(plan) && own in plan.sites && own.nodeId !in plan.choice
    requires point in plan.accessPoints && point.nodeId != own.nodeId
    requires !HasSite(plan.sites, point.nodeId) || point.nodeId in plan.choice
    ensures !Hop(plan, own, Lan(point.subnet), next)
  {
    var dst := Lan(point.subnet);
    if Hop(plan, own, dst, next) {
      var peer :| peer in Table(plan, own) && dst in peer.allowedIps && peer.publicKey == KeyOf(next);
      InTable(plan, own, peer);
      if a :| a in Points(plan) && a.nodeId == own.nodeId && peer == PointPeer(a) {
        assert a.subnet == point.subnet;
        PointIsUnique(plan, a, point);
        assert false;
      } else {
        var other :| other in plan.sites && Meshes(plan, own, other) && peer == MeshPeer(plan, own, other);
        InAllowedIps(plan, own, other, dst);
        var a :| a in Points(plan) && a.nodeId == other.nodeId && a.subnet == dst.subnet;
        PointIsUnique(plan, a, point);
        HiddenMeansNoEndpoint(plan, other);
        assert false;
      }
    }
  }

  /** A route that does not start at the owner takes a first hop. */
  lemma FirstHop(plan: Plan, from: Site, dst: Prefix, hops: nat) returns (next: Stop, path: seq<Stop>)
    requires Reaches(plan, from, dst, hops) && !Owns(AtNode(from), dst)
    ensures Route(plan, path, dst) && path[0] == AtNode(from) && |path| > 1 && next == path[1]
    ensures Hop(plan, from, dst, next)
  {
    path :| Route(plan, path, dst) && path[0] == AtNode(from) && |path| <= hops + 1;
    next := path[1];
  }

  lemma ConnectedNeedsAccessNodes(plan: Plan, hops: nat, own: Site)
    requires WellFormed(plan) && Connected(plan, hops) && own in plan.sites && own.nodeId in plan.choice
    ensures HasSite(plan.sites, plan.choice[own.nodeId]) && Visible(plan.endpoints, plan.choice[own.nodeId])
  {
    HiddenMeansNoEndpoint(plan, own);
    assert own == plan.sites[0] || plan.sites[0] != own;
    var other := if plan.sites[0] == own then plan.sites[1] else plan.sites[0];
    if !(HasSite(plan.sites, plan.choice[own.nodeId]) && Visible(plan.endpoints, plan.choice[own.nodeId])) {
      assert Destination(plan, Lan(other.subnet));
      assert Reaches(plan, own, Lan(other.subnet), hops);
      var next, path := FirstHop(plan, own, Lan(other.subnet), hops);
      StuckHidden(plan, own, other, next);
      assert false;
    }
  }

  lemma ConnectedNeedsPointNodes(plan: Plan, hops: nat, from: Site, point: AccessPoint)
    requires WellFormed(plan) && Connected(plan, hops) && point in plan.accessPoints
    requires forall h :: h in plan.choice ==>
               HasSite(plan.sites, plan.choice[h]) && Visible(plan.endpoints, plan.choice[h])
    requires from in plan.sites && from.nodeId != point.nodeId
    ensures HasSite(plan.sites, point.nodeId) && point.nodeId !in plan.choice
  {
    var dst := Lan(point.subnet);
    assert Destination(plan, dst);
    if !HasSite(plan.sites, point.nodeId) || point.nodeId in plan.choice {
      var own := from;
      if from.nodeId in plan.choice {
        own :| own in plan.sites && own.nodeId == plan.choice[from.nodeId];
        HiddenMeansNoEndpoint(plan, own);
      }
      assert Reaches(plan, own, dst, hops);
      var next, path := FirstHop(plan, own, dst, hops);
      StuckBeforePoint(plan, own, point, next);
      assert false;
    }
  }

  /** Every node reaches every node's and every device's subnet within three hops (or within any larger
      number of hops) exactly if all access nodes chosen and all access points are on visible members. */
  lemma DeliveryIff(plan: Plan, hops: nat)
    requires WellFormed(plan) && plan.sites != [] && hops >= 3
    ensures Connected(plan, hops) <==> Anchored(plan)
  {
    if Anchored(plan) {
      forall from, dst | from in plan.sites && Destination(plan, dst) ensures Reaches(plan, from, dst, hops) {
        var path := FindRoute(plan, from, dst);
      }
    }
    if Connected(plan, hops) {
      forall h | h in plan.choice
        ensures HasSite(plan.sites, plan.choice[h]) && Visible(plan.endpoints, plan.choice[h])
      {
        var own :| own in plan.sites && own.nodeId == h;
        ConnectedNeedsAccessNodes(plan, hops, own);
      }
      forall a | a in plan.accessPoints ensures HasSite(plan.sites, a.nodeId) && a.nodeId !in plan.choice {
        if plan.sites[0].nodeId != a.nodeId {
          ConnectedNeedsPointNodes(plan, hops, plan.sites[0], a);
        } else if |plan.sites| > 1 {
          ConnectedNeedsPointNodes(plan, hops, plan.sites[1], a);
        }
      }
    }
  }

  /** A hidden node whose access node has left the network cuts it off. */
  lemma LostAccessNode()
    ensures var gate, hidden := Site(1, 2, 11, 51820), Site(2, 3, 12, 51820);
            var plan := Plan([gate, hidden], [], map[1 := "10.0.0.1"], map[2 := 9], [2, 3]);
            WellFormed(plan) && !Connected(plan, 3)
  {
    var gate, hidden := Site(1, 2, 11, 51820), Site(2, 3, 12, 51820);
    var plan := Plan([gate, hidden], [], map[1 := "10.0.0.1"], map[2 := 9], [2, 3]);
    assert gate in plan.sites && hidden in plan.sites && !HasSite(plan.sites, 9);
    HiddenOf(plan.sites, plan.endpoints, {2});
    DeliveryIff(plan, 3);
  }

  // ----- No choice on the way

  lemma KeyIsUnique(plan: Plan, x: Stop, y: Stop)
    requires WellFormed(plan) && Member(plan, x) && Member(plan, y) && KeyOf(x) == KeyOf(y)
    ensures x == y
  {
  }

  lemma HopIsUnique(plan: Plan, own: Site, dst: Prefix, x: Stop, y: Stop)
    requires WellFormed(plan) && Anchored(plan) && own in plan.sites && Destination(plan, dst)
             && dst.subnet != own.subnet
    requires Hop(plan, own, dst, x) && Hop(plan, own, dst, y)
    ensures x == y
  {
    if own.nodeId in plan.choice {
      var gate :| gate in plan.sites && gate.nodeId == plan.choice[own.nodeId];
      HiddenTable(plan, own, gate);
    } else {
      var peer := Carrier(plan, own, dst);
    }
    KeyIsUnique(plan, x, y);
  }

  /** Forwarding is deterministic: two routes from the same node to the same destination are the same. */
  lemma {:induction false} RouteIsUnique(plan: Plan, dst: Prefix, p: seq<Stop>, q: seq<Stop>)
    requires WellFormed(plan) && Anchored(plan) && Destination(plan, dst)
    requires Route(plan, p, dst) && Route(plan, q, dst) && p[0] == q[0] && Member(plan, p[0])
    ensures p == q
  {
    if |p| == 1 || |q| == 1 {
      assert Owns(p[0], dst);
    } else {
      HopIsUnique(plan, p[0].site, dst, p[1], q[1]);
      RouteTail(plan, p, dst);
      RouteTail(plan, q, dst);
      RouteIsUnique(plan, dst, p[1..], q[1..]);
      assert p == [p[0]] + p[1..] && q == [q[0]] + q[1..];
    }
  }
}
