/** Reading user access points back from stored peer tables (`Network.getAccessPoints`). */
module Decode {
  import opened Lists
  import opened Overlay

  /** A node's network workload, as values. */
  datatype NetView = NetView(site: Site, peers: seq<Peer>)

  function Tables(plan: Plan, sites: seq<Site>): seq<NetView> {
    if sites == [] then []
    else Tables(plan, Front(sites)) + [NetView(Last(sites), Table(plan, Last(sites)))]
  }

  predicate NodeKey(nets: seq<NetView>, key: PublicKey) {
    exists net :: net in nets && PublicKey(net.site.privateKey) == key
  }

  /** A peer that is neither a node's nor reachable by an endpoint is a user's device. */
  function PointsIn(nets: seq<NetView>, peers: seq<Peer>, id: NodeId): seq<AccessPoint> {
    if peers == [] then []
    else
      var before, peer := PointsIn(nets, Front(peers), id), Last(peers);
      if NodeKey(nets, peer.publicKey) || peer.endpoint != Unset then before
      else before + [AccessPoint(peer.subnet, peer.publicKey, id)]
  }

  /** The points found on `some` of the nodes, node keys being looked up among all of `nets`. */
  function DecodePoints(nets: seq<NetView>, some: seq<NetView>): seq<AccessPoint> {
    if some == [] then []
    else DecodePoints(nets, Front(some)) + PointsIn(nets, Last(some).peers, Last(some).site.nodeId)
  }

  /** The access points that survive a round trip through the tables. */
  predicate Recoverable(plan: Plan, a: AccessPoint) {
    HasSite(plan.sites, a.nodeId) && forall s :: s in plan.sites ==> PublicKey(s.privateKey) != a.publicKey
  }

  function Survivors(plan: Plan, points: seq<AccessPoint>, sites: seq<Site>): seq<AccessPoint> {
    if points == [] then []
    else
      var before, a := Survivors(plan, Front(points), sites), Last(points);
      if Recoverable(plan, a) && HasSite(sites, a.nodeId) then before + [a] else before
  }

  lemma {:induction false} TablesAre(plan: Plan, sites: seq<Site>)
    ensures |Tables(plan, sites)| == |sites|
    ensures forall i :: 0 <= i < |sites| ==> Tables(plan, sites)[i] == NetView(sites[i], Table(plan, sites[i]))
  {
    if sites != [] {
      TablesAre(plan, Front(sites));
    }
  }

  lemma NodeKeysOfPlan(plan: Plan, key: PublicKey)
    ensures NodeKey(Tables(plan, plan.sites), key) <==> exists s :: s in plan.sites && PublicKey(s.privateKey) == key
  {
    var nets := Tables(plan, plan.sites);
    TablesAre(plan, plan.sites);
    if s :| s in plan.sites && PublicKey(s.privateKey) == key {
      var i :| 0 <= i < |plan.sites| && plan.sites[i] == s;
      assert nets[i].site == s && nets[i] in nets;
    }
  }

  lemma {:induction false} PointsInConcat(nets: seq<NetView>, p: seq<Peer>, q: seq<Peer>, id: NodeId)
    ensures PointsIn(nets, p + q, id) == PointsIn(nets, p, id) + PointsIn(nets, q, id)
  {
    if q == [] {
      assert p + q == p;
    } else {
      assert Front(p + q) == p + Front(q);
      PointsInConcat(nets, p, Front(q), id);
    }
  }

  lemma {:induction false} NoPointsIn(nets: seq<NetView>, peers: seq<Peer>, id: NodeId)
    requires forall p :: p in peers ==> NodeKey(nets, p.publicKey) || p.endpoint != Unset
    ensures PointsIn(nets, peers, id) == []
  {
    if peers != [] {
      assert Last(peers) in peers;
      NoPointsIn(nets, Front(peers), id);
    }
  }

  lemma {:induction false} PointPeersConcat(a: seq<AccessPoint>, b: seq<AccessPoint>, id: NodeId)
    ensures PointPeers(a + b, id) == PointPeers(a, id) + PointPeers(b, id)
  {
    if b == [] {
      assert a + b == a;
    } else {
      assert Front(a + b) == a + Front(b);
      PointPeersConcat(a, Front(b), id);
    }
  }

  lemma {:induction false} PointsOfUsers(plan: Plan, points: seq<AccessPoint>, own: Site)
    requires own in plan.sites
    ensures PointsIn(Tables(plan, plan.sites), PointPeers(points, own.nodeId), own.nodeId)
            == Survivors(plan, points, [own])
  {
    if points != [] {
      PointsOfUsers(plan, Front(points), own);
      NodeKeysOfPlan(plan, Last(points).publicKey);
      assert own in [own];
    }
  }

  /** What one table decodes to: the users on that node, never the mesh and never a hidden node. */
  lemma PointsOfTable(plan: Plan, own: Site)
    requires own in plan.sites
    ensures PointsIn(Tables(plan, plan.sites), Table(plan, own), own.nodeId)
            == Survivors(plan, plan.accessPoints, [own])
  {
    var nets, id := Tables(plan, plan.sites), own.nodeId;
    var mesh := MeshPeers(plan, own, plan.sites);
    var hidden := HiddenPoints(plan.sites, plan.choice);
    var users := PointPeers(plan.accessPoints, id);
    PointPeersConcat(plan.accessPoints, hidden, id);
    assert Table(plan, own) == mesh + (users + PointPeers(hidden, id));
    PointsInConcat(nets, mesh, users + PointPeers(hidden, id), id);
    PointsInConcat(nets, users, PointPeers(hidden, id), id);
    forall p | p in mesh ensures p.endpoint != Unset {
      InMeshPeers(plan, own, plan.sites, p);
    }
    NoPointsIn(nets, mesh, id);
    forall p | p in PointPeers(hidden, id) ensures NodeKey(nets, p.publicKey) {
      InPointPeers(hidden, id, p);
      var a :| a in hidden && p == PointPeer(a);
      InHiddenPoints(plan.sites, plan.choice, a);
      assert PointPeer(a).publicKey == a.publicKey;
      NodeKeysOfPlan(plan, a.publicKey);
    }
    NoPointsIn(nets, PointPeers(hidden, id), id);
    PointsOfUsers(plan, plan.accessPoints, own);
  }

  /** Walking one more node adds the users on it, provided no node is walked twice. */
  lemma {:induction false} SurvivorsSplit(plan: Plan, points: seq<AccessPoint>, sites: seq<Site>, own: Site)
    requires !HasSite(sites, own.nodeId)
    ensures multiset(Survivors(plan, points, sites + [own]))
            == multiset(Survivors(plan, points, sites)) + multiset(Survivors(plan, points, [own]))
  {
    if points != [] {
      SurvivorsSplit(plan, Front(points), sites, own);
      var id := Last(points).nodeId;
      assert own in sites + [own] && own in [own];
      assert HasSite(sites + [own], id) <==> HasSite(sites, id) || id == own.nodeId by {
        if s :| s in sites && s.nodeId == id {
          assert s in sites + [own];
        }
      }
    }
  }

  lemma {:induction false} SurvivorsNowhere(plan: Plan, points: seq<AccessPoint>)
    ensures Survivors(plan, points, []) == []
  {
    if points != [] {
      SurvivorsNowhere(plan, Front(points));
    }
  }

  lemma {:induction false} DecodePrefix(plan: Plan, sites: seq<Site>)
    requires forall s :: s in sites ==> s in plan.sites
    requires forall i, j :: 0 <= i < j < |sites| ==> sites[i].nodeId != sites[j].nodeId
    ensures multiset(DecodePoints(Tables(plan, plan.sites), Tables(plan, sites)))
            == multiset(Survivors(plan, plan.accessPoints, sites))
  {
    if sites == [] {
      SurvivorsNowhere(plan, plan.accessPoints);
    } else {
      var front, own := Front(sites), Last(sites);
      assert sites == front + [own];
      assert forall i :: 0 <= i < |front| ==> front[i] == sites[i];
      DecodePrefix(plan, front);
      PointsOfTable(plan, own);
      SurvivorsSplit(plan, plan.accessPoints, front, own);
      assert Front(Tables(plan, sites)) == Tables(plan, front);
    }
  }

  lemma {:induction false} AllSurvive(plan: Plan, points: seq<AccessPoint>)
    ensures |Survivors(plan, points, plan.sites)| <= |points|
    ensures |Survivors(plan, points, plan.sites)| == |points| <==> forall a :: a in points ==> Recoverable(plan, a)
    ensures (forall a :: a in points ==> Recoverable(plan, a)) ==> Survivors(plan, points, plan.sites) == points
  {
    if points != [] {
      AllSurvive(plan, Front(points));
      assert points == Front(points) + [Last(points)];
    }
  }

  /** Decoding the tables of any plan gives back the access points, each as often as it was added, exactly if
      all of them sit on members and no device shares a node's key; in general it gives back those that do. */
  lemma DecodeIff(plan: Plan)
    requires forall i, j :: 0 <= i < j < |plan.sites| ==> plan.sites[i].nodeId != plan.sites[j].nodeId
    ensures var nets := Tables(plan, plan.sites);
            multiset(DecodePoints(nets, nets)) == multiset(Survivors(plan, plan.accessPoints, plan.sites))
    ensures var nets := Tables(plan, plan.sites);
            multiset(DecodePoints(nets, nets)) == multiset(plan.accessPoints)
            <==> forall a :: a in plan.accessPoints ==> Recoverable(plan, a)
  {
    DecodePrefix(plan, plan.sites);
    AllSurvive(plan, plan.accessPoints);
    var kept := Survivors(plan, plan.accessPoints, plan.sites);
    if multiset(kept) == multiset(plan.accessPoints) {
      assert |multiset(kept)| == |kept| && |multiset(plan.accessPoints)| == |plan.accessPoints|;
    }
  }
}
