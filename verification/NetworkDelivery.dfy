/** What the tables held by a `Network` object mean: delivery, and the way back to its access points. */
module NetworkDelivery {
  import opened Lists
  import opened Overlay
  import opened Allocation
  import opened Decode
  import opened Routing
  import opened Delivery
  import opened Networks

  /** Key pairs were drawn independently for every node and every device. */
  ghost predicate KeysDiffer(sites: seq<Site>, points: seq<AccessPoint>) {
    && (forall i, j :: 0 <= i < j < |sites| ==> sites[i].privateKey != sites[j].privateKey)
    && (forall i, j :: 0 <= i < j < |points| ==> points[i].publicKey != points[j].publicKey)
    && (forall s, a | s in sites && a in points :: a.publicKey != PublicKey(s.privateKey))
  }

  lemma ConsistentSites(s: NetState)
    requires Consistent(s) && KeysDiffer(s.sites, s.accessPoints)
    ensures Distinct(s.sites) && Distinct(s.accessPoints)
    ensures forall x, y | x in s.sites && y in s.sites ::
              x.nodeId == y.nodeId || x.subnet == y.subnet || x.privateKey == y.privateKey ==> x == y
    ensures forall a, b | a in s.accessPoints && b in s.accessPoints ::
              a.subnet == b.subnet || a.publicKey == b.publicKey ==> a == b
    ensures forall a, x | a in s.accessPoints && x in s.sites :: a.subnet != x.subnet
  {
    SubnetsByIndex(s);
    SameSite(s);
    SamePoint(s);
  }

  lemma SubnetsByIndex(s: NetState)
    requires Distinct(UsedSubnets(s))
    ensures forall i, j :: 0 <= i < j < |s.sites| ==> s.sites[i].subnet != s.sites[j].subnet
    ensures forall i, j :: 0 <= i < j < |s.accessPoints| ==> s.accessPoints[i].subnet != s.accessPoints[j].subnet
    ensures forall i, j :: 0 <= i < |s.sites| && 0 <= j < |s.accessPoints| ==>
              s.sites[i].subnet != s.accessPoints[j].subnet
  {
    var used, n := UsedSubnets(s), |s.sites|;
    assert forall i :: 0 <= i < n ==> used[i] == s.sites[i].subnet;
    assert forall i {:trigger s.accessPoints[i]} :: 0 <= i < |s.accessPoints| ==>
             used[n + i] == s.accessPoints[i].subnet;
  }

  lemma SameSite(s: NetState)
    requires Consistent(s) && KeysDiffer(s.sites, s.accessPoints)
    requires forall i, j :: 0 <= i < j < |s.sites| ==> s.sites[i].subnet != s.sites[j].subnet
    ensures Distinct(s.sites)
    ensures forall x, y | x in s.sites && y in s.sites ::
              x.nodeId == y.nodeId || x.subnet == y.subnet || x.privateKey == y.privateKey ==> x == y
  {
    forall x, y | x in s.sites && y in s.sites
                  && (x.nodeId == y.nodeId || x.subnet == y.subnet || x.privateKey == y.privateKey)
      ensures x == y
    {
      var i :| 0 <= i < |s.sites| && s.sites[i] == x;
      var j :| 0 <= j < |s.sites| && s.sites[j] == y;
    }
  }

  lemma SamePoint(s: NetState)
    requires KeysDiffer(s.sites, s.accessPoints)
    requires forall i, j :: 0 <= i < j < |s.accessPoints| ==> s.accessPoints[i].subnet != s.accessPoints[j].subnet
    ensures Distinct(s.accessPoints)
    ensures forall a, b | a in s.accessPoints && b in s.accessPoints ::
              a.subnet == b.subnet || a.publicKey == b.publicKey ==> a == b
  {
    forall a, b | a in s.accessPoints && b in s.accessPoints && (a.subnet == b.subnet || a.publicKey == b.publicKey)
      ensures a == b
    {
      var i :| 0 <= i < |s.accessPoints| && s.accessPoints[i] == a;
      var j :| 0 <= j < |s.accessPoints| && s.accessPoints[j] == b;
    }
  }

  /** An object in order whose tables follow a plan has a well-formed plan. */
  lemma MatchedPlanIsWellFormed(net: Network, plan: Plan)
    requires net.Matches(plan) && Consistent(net.State()) && KeysDiffer(net.Sites(), net.accessPoints)
    ensures WellFormed(plan)
  {
    var s := net.State();
    ConsistentSites(s);
    forall site | site in plan.sites ensures site.subnet in plan.reserved {
      var i :| 0 <= i < |plan.sites| && plan.sites[i] == site;
      assert SiteSubnets(plan.sites)[i] == site.subnet;
    }
    forall a | a in plan.accessPoints ensures a.subnet in plan.reserved {
      var i :| 0 <= i < |plan.accessPoints| && plan.accessPoints[i] == a;
      assert PointSubnets(plan.accessPoints)[i] == a.subnet;
    }
  }

  /** With the tables just generated, everything reaches everything in three hops exactly if the drawn access
      nodes and the access points are on visible members. */
  lemma NetworkDelivers(net: Network, plan: Plan)
    requires net.Matches(plan) && Consistent(net.State()) && KeysDiffer(net.Sites(), net.accessPoints)
    requires net.networks != []
    ensures Connected(plan, 3) <==> Anchored(plan)
    ensures forall k :: 0 <= k < |net.networks| ==> net.networks[k].peers == Table(plan, plan.sites[k])
  {
    MatchedPlanIsWellFormed(net, plan);
    DeliveryIff(plan, 3);
  }

  /** In the tables just generated, every entry under another member's key leads to that member: to its subnet, and
      to where it listens unless the grid knows no address of it. */
  lemma NetworkTunnelsLead(net: Network, plan: Plan, k: nat, peer: Peer, other: Site)
    requires net.Matches(plan) && Consistent(net.State()) && KeysDiffer(net.Sites(), net.accessPoints)
    requires k < |net.networks| && peer in net.networks[k].peers
    requires other in net.Sites() && other != net.networks[k].site && peer.publicKey == PublicKey(other.privateKey)
    ensures peer.subnet == other.subnet
    ensures Lan(other.subnet) in peer.allowedIps && Wg(other.subnet) in peer.allowedIps
    ensures if Visible(net.endpoints, other.nodeId) then LeadsTo(net.endpoints, peer.endpoint, other)
            else peer.endpoint == Unset
  {
    MatchedPlanIsWellFormed(net, plan);
    assert net.Sites()[k] == net.networks[k].site;
    TunnelsLead(plan, net.networks[k].site, peer, other);
  }

  /** A member is dialled by another one where it listens exactly if the grid knows its address and the other one, if
      it is hidden, drew it as its access node. */
  lemma NetworkTunnelThere(net: Network, plan: Plan, k: nat, other: Site)
    requires net.Matches(plan) && Consistent(net.State()) && KeysDiffer(net.Sites(), net.accessPoints)
    requires k < |net.networks| && other in net.Sites() && other != net.networks[k].site
    ensures (exists peer :: peer in net.networks[k].peers && peer.publicKey == PublicKey(other.privateKey)
                            && LeadsTo(net.endpoints, peer.endpoint, other))
            <==> Visible(net.endpoints, other.nodeId)
                 && (net.networks[k].site.nodeId in plan.choice ==>
                       plan.choice[net.networks[k].site.nodeId] == other.nodeId)
  {
    MatchedPlanIsWellFormed(net, plan);
    var own := net.networks[k].site;
    assert net.Sites()[k] == own;
    TunnelThere(plan, own, other);
  }

  /** Storing the tables and reading access points back from them loses nothing, exactly if every access
      point is on a member; a device never shares a node's key. */
  lemma NetworkDecodes(net: Network, plan: Plan)
    requires net.Matches(plan) && Consistent(net.State()) && KeysDiffer(net.Sites(), net.accessPoints)
    ensures multiset(DecodePoints(net.NetViews(), net.NetViews())) == multiset(net.accessPoints)
            <==> forall a :: a in net.accessPoints ==> HasSite(net.Sites(), a.nodeId)
  {
    TablesAre(plan, plan.sites);
    assert net.NetViews() == Tables(plan, plan.sites);
    DecodeIff(plan);
  }
}
